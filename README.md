# Team leaderboard core, modelled in Dafny

This project models the weekly team leaderboard of the U19 underwater-hockey team site. The model covers these parts:

- **Scoring.** Each Strava activity is classified as swimming or not and gets a weighted score. An athlete's activity count and summed score are blended into a composite.
- **Enrichment.** The ranked rows of the weekly leaderboard gain ranks, gaps, swimming shares and pulse flags. The recent-activity feed is built from the same data.
- **Smart streak.** It counts consecutive weeks with at least five training days and is cached in the key-value store.
- **Heart-rate zones.** Each activity's time is placed in one of five heart-rate zones, and the zones are summed per athlete over the last week.
- **Helpers.** These are:
  - the Strava client's FIFO rate limiter and the club-page pagination loop;
  - the merge of per-athlete fetches;
  - the hand-kept team roster;
  - the `/team` route guard;
  - the event countdown;
  - the migration script's statement splitter and execution loop.

Modelling conventions:

- Time is an `int` number of UTC milliseconds, and calendar dates are `int` day numbers since 1970-01-01.
- Scores, minutes and heart rates are `real`.
- Network fetches, database rows, key-value reads and writes, and the clock are method or function parameters. A failing call is a boolean input or a set of failing keys. A failed read, or a failure the source catches, is a `None`; a call whose rejection propagates returns `Rejected`.
- Objects the source mutates are classes:
  - the rate limiter;
  - the streak and response caches;
  - the roster array;
  - the countdown state.
- Loops the source runs are methods with loop invariants, each proved against a specification function:
  - the heart-rate statistics pass;
  - the streak week map and the streak walk;
  - the club pagination;
  - the migration loop.

| file | module | models |
|---|---|---|
| wrappers.dfy | Wrappers | `Option`, for nullable values and failed reads; `Settled`, for awaited calls that may reject |
| text.dfy | Text | `toLowerCase` (ASCII), `includes`, `startsWith`, `trim`, `split`, decimal rendering |
| calendar.dfy | Calendar | UTC day of a timestamp, weekday, Monday of a week, civil dates |
| db_schema.dfy | DbSchema | the `athletes` and `activities` rows the routes read |
| activities.dfy | ActivityScoring | lib/scoring/activities.ts |
| heartrate.dfy | HeartRate | lib/scoring/heartrate.ts |
| streaks.dfy | Streaks | lib/leaderboard/streaks.ts |
| leaderboard_utils.dfy | LeaderboardUtils | lib/leaderboard/utils.ts |
| leaderboard_route.dfy | LeaderboardRoute | app/api/leaderboard/data/route.ts |
| hr_zones.dfy | HRZones | lib/hr/zones.ts |
| strava_api.dfy | StravaApi | lib/strava/api.ts (rate limiter, club pagination, team merge) |
| team_members.dfy | TeamMembers | lib/strava/team-members.ts |
| middleware.dfy | Middleware | middleware.ts |
| countdown.dfy | Countdown | components/CountdownTimer.tsx |
| migration.dfy | Migration | scripts/run-migration.ts |

Where the test file and the code disagree, the model follows the code. `calculateWeightedScore` applies no swimming multiplier. So a 60-minute, 2 km swim scores 62, while lib/scoring/__tests__/activities.test.ts prints 93 as the expected value.

## Model

| member | source | states |
|---|---|---|
| ActivityScoring.IsSwimmingIff | lib/scoring/activities.ts:20-33 | An activity is swimming exactly when its type or its sport type is one of the four swimming labels, or one of the six keywords occurs in its lower-cased name. |
| ActivityScoring.SwimTypeWins | lib/scoring/activities.ts:22-24 | A swimming `type` makes the activity swimming whatever its name and sport type. |
| ActivityScoring.SwimSportTypeWins | lib/scoring/activities.ts:26-28 | A swimming `sport_type` makes the activity swimming whatever its name. |
| ActivityScoring.NameDecides | lib/scoring/activities.ts:31-32 | Without a swimming label in either field, the result is exactly the keyword test on the name. |
| ActivityScoring.UnderwaterHockeyIsSwimming | lib/scoring/activities.ts:31-32 | "UWH practice session" of type Workout is swimming. |
| ActivityScoring.MorningRunIsNotSwimming | lib/scoring/activities.ts:31-32 | "Morning run" of type Run is not swimming. |
| ActivityScoring.WeightedScore | lib/scoring/activities.ts:44-53 | The score is non-negative for non-negative time and distance, and 0 for zero time and distance. |
| ActivityScoring.WeightedScoreIgnoresClassification | lib/scoring/activities.ts:44-53 | The score is moving minutes plus kilometres, unchanged by the type, sport type or name. There is no swimming multiplier. |
| ActivityScoring.SwimScoreExample | lib/scoring/activities.ts:38-53 | A 60-minute, 2 km swim is swimming and scores 62, not 93. |
| ActivityScoring.CompositeScore | lib/scoring/activities.ts:66-71 | The composite is 60 per activity plus 0.4 times the summed weighted score. |
| ActivityScoring.CompositeExample | lib/scoring/activities.ts:66-71 | Ten activities with a summed score of 850 give 940. |
| ActivityScoring.CompositeMonotone | lib/scoring/activities.ts:66-71 | The composite never decreases when either the count or the summed score grows. |
| ActivityScoring.ScoreActivity | lib/scoring/activities.ts:84-93 | The scored record keeps the activity unchanged and adds its weighted score and swimming flag. |
| ActivityScoring.ScoreActivities | lib/scoring/activities.ts:98-100 | The list keeps its length, and item i is the scored activity i. |
| ActivityScoring.ScoreActivitiesKeepsActivities | lib/scoring/activities.ts:98-100 | Stripping the added fields gives back the input list, in order. |
| HeartRate.HRZone | lib/scoring/heartrate.ts:36-44 | The zone is always between 1 and 5, including for a zero maximum, where JavaScript's Infinity and NaN apply. |
| HeartRate.HRZoneThresholds | lib/scoring/heartrate.ts:37-43 | For a positive maximum: zone 5 iff the rate is at least 90% of it; zone 4 or more iff 80%; 3 or more iff 70%; 2 or more iff 60%. Below the 50% floor the table documents, the zone is 1. |
| HeartRate.HRZoneMonotone | lib/scoring/heartrate.ts:39-43 | For a fixed positive maximum, a higher rate never gives a lower zone. |
| HeartRate.HRZoneExample | lib/scoring/heartrate.ts:37-43 | 171 of 190 is zone 5, and 170 of 190 is zone 4. |
| HeartRate.SetZone | lib/scoring/heartrate.ts:73 | The written zone holds the new value, and the other four zones are unchanged. |
| HeartRate.AddZones | lib/scoring/heartrate.ts:102-106 | Each zone of the sum is the sum of that zone in the two inputs. |
| HeartRate.ActivityHRZonesShape | lib/scoring/heartrate.ts:52-76 | Without a truthy reading, all zones are 0. With one, only the reading's zone holds the moving minutes and the total is those minutes. |
| HeartRate.CalculateHRZoneStats | lib/scoring/heartrate.ts:81-124 | The loop's result equals the fold `ZoneStats` over the activities. |
| HeartRate.TotalIsCountedMinutes | lib/scoring/heartrate.ts:95-115 | `totalHRMinutes` equals the sum of the five zones, which equals the moving minutes summed over the counted activities. |
| HeartRate.ZoneSumsNonNegative | lib/scoring/heartrate.ts:95-115 | No zone's minutes are negative when no moving time is. |
| HeartRate.CountWithHRProperties | lib/scoring/heartrate.ts:93-122 | `activitiesWithHR` is at most the number of activities. It is positive iff some activity has a reading, and equal to the count iff all do. |
| HeartRate.ZoneStatsCounts | lib/scoring/heartrate.ts:93-122 | For any maximum, `totalActivities` is the input length and `activitiesWithHR` counts the activities with a reading. `hasHRData` holds iff some activity has a reading. |
| HeartRate.ZoneStatsDefaults | lib/scoring/heartrate.ts:81-123 | For a list whose average rates are all 0, with the default maximum of 190: `totalActivities` is the list's length, and there is no HR data. |
| HeartRate.FormatZoneMinutesShape | lib/scoring/heartrate.ts:129-138 | An hours part appears iff there are at least 60 minutes. The minutes part lies in 0..60 (60 included), and hours times 60 plus minutes is the rounded total. |
| HeartRate.FormatZoneMinutesShowsSixty | lib/scoring/heartrate.ts:129-138 | As written, 119.6 minutes shows "1h 60m" and 59.6 minutes shows "60m". |
| HeartRate.FormatZoneMinutesCarriedShape | lib/scoring/heartrate.ts:129-138 | With rounding first, the minutes part is always below 60, hours and minutes add up to the rounded total, and 119.6 shows "2h 0m". |
| HeartRate.ZoneLabels | lib/scoring/heartrate.ts:143-168 | Zones 1..5, and exactly those, get a colour other than grey and a name other than "Unknown". The five colours differ, and so do the five names. Every zone `getHRZone` returns has a name. |
| Streaks.RecentStarts | lib/leaderboard/streaks.ts:45-50 | The query keeps exactly the activities that started within the last 90 days. With none, the list is empty. |
| Streaks.NoRecentActivityNoStreak | lib/leaderboard/streaks.ts:45-50 | Without an activity in the last 90 days, the streak is 0. |
| Streaks.WeekCountsAdd | lib/leaderboard/streaks.ts:58-65 | A new date adds one to its week's count, starting from 0 for a new week. Every other week is unchanged. |
| Streaks.WeekCountsBounds | lib/leaderboard/streaks.ts:53-65 | Same-date activities count once. Every key of the week map is a Monday, and its day count is between 1 and 7. |
| Streaks.SortWeeksNewestFirst | lib/leaderboard/streaks.ts:68-70 | The weeks come out in strictly decreasing Monday order and list exactly the entries of the week map. |
| Streaks.WalkCountsBeforeBreak | lib/leaderboard/streaks.ts:73-89 | On any newest-first listing, the walk counts exactly the qualifying weeks newer than every breaking week. A week breaks when it has fewer than 5 days and is not the current week. |
| Streaks.CountedWeeksSkipped | lib/leaderboard/streaks.ts:80-86 | A current week with fewer than 5 days neither counts nor breaks. |
| Streaks.CountedWeeksBroken | lib/leaderboard/streaks.ts:80-86 | A non-current newest week with fewer than 5 days leaves nothing counted. |
| Streaks.StreakAtMostActiveWeeks | lib/leaderboard/streaks.ts:76-87 | The streak never exceeds the number of distinct active weeks. |
| Streaks.GapsDoNotBreak | lib/leaderboard/streaks.ts:76-87 | Adjacency is not checked: two full weeks two weeks apart count as a streak of 2. |
| Streaks.CurrentWeekSkipped | lib/leaderboard/streaks.ts:76-87 | A short current week is skipped while the weeks behind it still count. The same short week breaks the streak when it is not current, and a short earlier week stops the count. |
| Streaks.WeekKeyOf | lib/leaderboard/streaks.ts:62-63 | The week key is a Monday at most six days before the activity's date. |
| Streaks.BuildWeekMap | lib/leaderboard/streaks.ts:53-65 | The loop's map equals `WeekCounts`: each active week maps to its number of distinct dates. |
| Streaks.WalkWeeks | lib/leaderboard/streaks.ts:73-89 | The loop with `break` returns exactly `Walk` over the sorted weeks. |
| Streaks.CalculateStreakFromActivities | lib/leaderboard/streaks.ts:41-90 | The result is the specified smart streak of the last 90 days' history, and at most the number of active weeks. |
| Streaks.CachedStreakIff | lib/leaderboard/streaks.ts:95-114 | A stored entry is served iff the read succeeds and the entry is at most 300 s old, and then its stored streak is what is served. |
| Streaks.StreakStore.constructor | lib/leaderboard/streaks.ts:95-139 | The store starts empty. |
| Streaks.StreakStore.CalculateSmartStreak | lib/leaderboard/streaks.ts:22-50 | A fresh entry is returned unchanged, and the store is untouched. Otherwise, if the activity query rejects, the call rejects and the store is untouched. Otherwise the streak is recomputed. If the write succeeds, it is stored with the current time; a write error leaves the store as it was. |
| Streaks.StreakStore.InvalidateStreakCache | lib/leaderboard/streaks.ts:145-151 | The athlete's entry is removed. A delete error is swallowed and leaves the store unchanged. |
| Streaks.StreakStore.InvalidateAllStreakCaches | lib/leaderboard/streaks.ts:157-168 | All listed entries are removed at once. An empty list or a failed delete touches nothing. |
| LeaderboardUtils.FormatTimeAgoBands | lib/leaderboard/utils.ts:9-30 | A future time or less than a minute ago shows "just now". Then come floored "Nm ago" below an hour, "Nh ago" below a day and "Nd ago" below a week. From a week on, the month/day label shows. |
| LeaderboardUtils.FormatTimeAgoDateExample | lib/leaderboard/utils.ts:29 | An activity on 15 January 2026, seen two weeks later, shows "Jan 15". |
| LeaderboardUtils.IsWithinHoursIff | lib/leaderboard/utils.ts:36-48 | A missing date is never recent. Otherwise the test holds iff the elapsed hours are between 0 and the limit, so a future time is not recent. |
| LeaderboardUtils.GetMonday | lib/leaderboard/utils.ts:54-61 | The result is a Monday at 00:00 UTC, no later than the input and less than seven days before it. |
| LeaderboardUtils.GetMondayIdempotent | lib/leaderboard/utils.ts:54-61 | The Monday of a Monday is itself. |
| Calendar.MondayOfProperties | lib/leaderboard/utils.ts:54-61 | The Monday of a day is a Monday 0 to 6 days earlier, and a Sunday goes back six days. |
| Calendar.MondayOfSameWeek | lib/leaderboard/utils.ts:54-61 | Two days share a Monday exactly when they lie in the same Monday-aligned week. |
| LeaderboardRoute.Enrich | app/api/leaderboard/data/route.ts:66-115 | One enriched entry per row. `EnrichRanksAndCopies` and `LeaderGaps` state what each entry holds. |
| LeaderboardRoute.EnrichRanksAndCopies | app/api/leaderboard/data/route.ts:66-111 | Ranks run 1..n in input order. Every column of the view is copied: id, username, first and last name, picture, activity counts, weighted and composite scores, and last activity. The swimming percentage is the row's swims over its activities, and the athlete is swimming-dominant iff that percentage is at least 50. The streak is the athlete's. The pulse flag holds iff the last activity is at most 6 hours old and not in the future. |
| LeaderboardRoute.LeaderGaps | app/api/leaderboard/data/route.ts:69-74 | `gapBehindLeader` is max(0, leader − own) and is 0 for the leader. `gapBehindNext` is 0 for rank 1 and the previous score minus own otherwise. |
| LeaderboardRoute.RankedGapsTelescope | app/api/leaderboard/data/route.ts:70-75 | On rows ordered by composite, descending as the query orders them, no gap is negative. The gaps to the next athlete sum to the gap behind the leader. |
| LeaderboardRoute.UnrankedGapIsNegative | app/api/leaderboard/data/route.ts:70-75 | The gap to the next athlete is not clamped: rows out of order give a negative gap. |
| LeaderboardRoute.SwimmingShare | app/api/leaderboard/data/route.ts:78-83 | With no activities the share is 0 and not dominant. Otherwise it is dominant iff at least half the activities are swims, and it lies between 0 and 100. |
| LeaderboardRoute.AthleteMap | app/api/leaderboard/data/route.ts:63 | Every athlete's id is a key, and each key maps to an athlete with that id. |
| LeaderboardRoute.ActivityFeed | app/api/leaderboard/data/route.ts:118-137 | One feed item per recent activity. |
| LeaderboardRoute.FeedItemProperties | app/api/leaderboard/data/route.ts:118-137 | The item copies the activity's id, athlete id, type, name, weighted score and start date, and its age label is `formatTimeAgo` of the start date. It is swimming iff its type is a swimming label or its name has a keyword, with the type standing in for the sport type. A missing athlete gives "Unknown" and "". |
| LeaderboardRoute.WeekStartDate | app/api/leaderboard/data/route.ts:141-146 | The week start is the Monday 00:00 UTC of the current week, by the same rule as `getMonday`. |
| LeaderboardRoute.FetchLeaderboardData | app/api/leaderboard/data/route.ts:54-157 | The response holds the enriched rows and the feed. Its athlete total is the row count, its week start is the current Monday, and it is stamped with the current time. |
| LeaderboardRoute.ResponseCache.constructor | app/api/leaderboard/data/route.ts:27-49 | The cache starts empty. |
| LeaderboardRoute.ResponseCache.Get | app/api/leaderboard/data/route.ts:27-49 | A live cached response is returned unchanged. On a miss, fresh data is computed and stored for 30 s: the enriched rows, the feed, `totalAthletes` = the number of rows, the current week's Monday and the current time. A failed read or query answers with the 500 error, and a failed write does too, without storing anything. |
| HRZones.OrDefault | lib/hr/zones.ts:46-49 | A null or zero value gives the default, and any other value is kept. |
| HRZones.AthleteActivitiesSince | lib/hr/zones.ts:24-27 | The rows kept are exactly the athlete's rows from the cut-off on. |
| HRZones.WithAverageHR | lib/hr/zones.ts:30-32 | The rows kept are exactly those with a non-null average heart rate. |
| HRZones.AthleteActivitiesSinceAppend | lib/hr/zones.ts:24-27 | The athlete/date filter maps a concatenation to the concatenation of the filtered parts, and keeps a single row iff it passes. So it keeps order and duplicates. |
| HRZones.WithAverageHRAppend | lib/hr/zones.ts:30-32 | The average filter maps a concatenation to the concatenation of the filtered parts, and keeps a single row iff it has an average. So it keeps order and duplicates. |
| HRZones.WithAverageHREmpty | lib/hr/zones.ts:30-36 | The filter leaves nothing iff no row has an average heart rate. |
| HRZones.ToStravaActivity | lib/hr/zones.ts:40-56 | Missing distance and moving time become 0, elapsed time copies moving time, and `has_heartrate` is forced true. Both type fields carry the row's type, and the average is copied. A missing or zero maximum takes the athlete's maximum, and any other is kept. A missing or zero elevation gain becomes 0. |
| HRZones.ToStravaActivities | lib/hr/zones.ts:40-56 | One record per row, in order. |
| HRZones.CalculateAthleteZoneDistribution | lib/hr/zones.ts:19-69 | The call rejects iff the activity query rejects. Otherwise the result is null iff no row of the athlete in the last seven days has an average heart rate, and else it is the rounded statistics of those rows. |
| HRZones.ActivitiesWithHRCountsNonZero | lib/hr/zones.ts:30-32 | The statistics count only the rows whose average is non-zero, though a zero average passes the null filter. |
| HRZones.AllZeroAverages | lib/hr/zones.ts:30-32 | A week whose averages are all 0 gives a non-null result with every zone and the total at 0. |
| HRZones.RoundWithinHalf | lib/hr/zones.ts:60-67 | Each rounded figure is within half a minute of the unrounded one. |
| HRZones.RoundedTotalDrift | lib/hr/zones.ts:60-67 | The rounded total can differ from the sum of the rounded zones by at most 2 minutes either way. |
| HRZones.RoundedTotalExample | lib/hr/zones.ts:60-67 | Two zones of 0.4 minutes show as 0 and 0, with a total of 1. |
| HRZones.CalculateAllAthleteZones | lib/hr/zones.ts:77-99 | The call rejects iff some athlete's activity query rejects. Otherwise there is one entry per athlete, in input order. Each uses the athlete's maximum heart rate, or 190 when it is null or 0. |
| HRZones.WeekStartDate | lib/hr/zones.ts:104-108 | The date is the calendar day seven days before today. |
| StravaApi.ProcessQueueFifo | lib/strava/api.ts:39-66 | A pass does nothing while a task is in flight or the queue is empty. Otherwise it starts the queue's front task, leaves the rest in order and marks a task in flight. |
| StravaApi.ProcessQueueWindowReset | lib/strava/api.ts:47-50 | Past the reset time, the count restarts, and the window ends 15 minutes after now. |
| StravaApi.ProcessQueueWaitsAtLimit | lib/strava/api.ts:53-59 | With 95 requests sent and the window open, the pass waits for the reset. The task is then the first of a new 15-minute window. |
| StravaApi.ProcessQueueCountBound | lib/strava/api.ts:47-59 | The count stays at most 95 as long as no pass runs at the exact reset instant. |
| StravaApi.ProcessQueueAtResetInstant | lib/strava/api.ts:47-59 | At the reset instant neither branch resets, so a full window sends a 96th request. |
| StravaApi.RateLimiter.constructor | lib/strava/api.ts:18-23 | The queue is empty and idle, the count is 0, and the window ends 15 minutes after creation. |
| StravaApi.RateLimiter.Execute | lib/strava/api.ts:24-37 | The task is appended to the queue, and a pass follows. Tasks run in `execute` order. |
| StravaApi.RateLimiter.ProcessQueue | lib/strava/api.ts:39-66 | The state after a pass is the one `ProcessQueueStart` specifies. The dispatched tasks gain only the started one. |
| StravaApi.RateLimiter.TaskSettled | lib/strava/api.ts:68-73 | After a task settles, the limiter clears the in-flight flag and starts the next pass when tasks wait. |
| StravaApi.RecentOnly | lib/strava/api.ts:362-365 | The filter keeps exactly the activities from the cut-off on. |
| StravaApi.RecentOnlyAppend | lib/strava/api.ts:362-365 | The filter maps a concatenation to the concatenation of the filtered parts, and keeps a single activity iff it is recent. So it keeps order and duplicates. |
| StravaApi.RecentOnlyDropsOld | lib/strava/api.ts:362-370 | The filter keeps the whole page iff no activity on it is older than the cut-off. |
| StravaApi.ClubCollectStep | lib/strava/api.ts:352-375 | One round stops on an empty page, on a short page or on a page reaching past the cut-off, and continues otherwise. |
| StravaApi.FetchAllRecentClubActivities | lib/strava/api.ts:344-378 | The call rejects iff the loop requests a page whose fetch rejects before it stops, and then the pages already collected are lost. Otherwise the loop collects exactly `ClubCollect` from page 1 with a seven-day cut-off. |
| StravaApi.FailuresPastFifthPageHarmless | lib/strava/api.ts:352-354 | Pages after the fifth are never requested, so failures there never make the call fail. |
| StravaApi.ClubCollectIsPrefixOfPages | lib/strava/api.ts:362-367 | The result is the recent activities of the first k pages, in page order and in order within each page, for some k of at most 5. |
| StravaApi.ClubCollectAllRecent | lib/strava/api.ts:347-365 | Every collected activity started within the last seven days. |
| StravaApi.ClubCollectReadsFivePages | lib/strava/api.ts:352 | Pages after the fifth never affect the result. |
| StravaApi.FirstPageStops | lib/strava/api.ts:352-375 | A short first page, or one reaching past the cut-off, ends the loop after that page. |
| StravaApi.Flatten | lib/strava/api.ts:218-228 | The merged list holds exactly the activities of the successful fetches. A failed fetch contributes nothing. |
| StravaApi.InsertByDatePermutes | lib/strava/api.ts:229-231 | Inserting adds the one activity and keeps all the others. |
| StravaApi.InsertByDateSorted | lib/strava/api.ts:229-231 | Inserting into a newest-first list keeps it newest first. |
| StravaApi.SortNewestFirstCorrect | lib/strava/api.ts:229-231 | The sort orders newest first and is a permutation of its input. |
| StravaApi.TeamActivitiesCorrect | lib/strava/api.ts:210-234 | The result is newest first, a permutation of the concatenated successful fetches. A failed fetch drops only that athlete's activities. |
| TeamMembers.InitialIdsDistinct | lib/strava/team-members.ts:13-23 | The initial roster holds nine distinct ids. |
| TeamMembers.WithMemberProperties | lib/strava/team-members.ts:35-39 | The id becomes present and is appended iff it was absent. Existing ids keep their places. Distinct ids stay distinct, a second add changes nothing, and no other id appears. |
| TeamMembers.MemberIdArray.constructor | lib/strava/team-members.ts:13-23 | The array holds the given ids. |
| TeamMembers.TeamRoster.constructor | lib/strava/team-members.ts:13-23 | The roster is a fresh array holding the nine initial ids. |
| TeamMembers.TeamRoster.GetTeamMemberIds | lib/strava/team-members.ts:28-30 | The array itself is returned, not a copy, so later additions are visible through it. |
| TeamMembers.TeamRoster.AddTeamMember | lib/strava/team-members.ts:35-39 | The shared array gets the id appended iff it was absent, and no duplicates arise. |
| Middleware.GuardDecision | middleware.ts:10-31 | A redirect happens iff the request is unauthenticated, the path starts with "/team" and the path is not "/team/login". The redirect goes to "/team/login" with the original path. The login page and authenticated requests always pass. |
| Middleware.MatcherWithinPrefix | middleware.ts:19-35 | Every path the matcher hands over starts with "/team". The prefix test alone would also redirect "/teams", which the matcher never hands over. |
| Countdown.TargetIsJuly16AtUtcPlus3 | components/CountdownTimer.tsx:23 | The target instant is midnight of 16 July 2026 at UTC+3. |
| Countdown.DecomposeBounds | components/CountdownTimer.tsx:27-36 | The days are never negative. The hours lie in 0..23, and the minutes and seconds in 0..59. |
| Countdown.DecomposeZeroIff | components/CountdownTimer.tsx:27-36 | All four figures are 0 exactly when less than a second is left, which includes a target already passed. |
| Countdown.DecomposeReconstructs | components/CountdownTimer.tsx:28-31 | For a positive difference, the four figures put back together fall at most one second short of it. |
| Countdown.CountdownTimer.constructor | components/CountdownTimer.tsx:13-18 | The timer starts at all zeros. |
| Countdown.CountdownTimer.Tick | components/CountdownTimer.tsx:21-43 | Each tick stores the decomposition of the time left until the target. |
| Migration.StatementsShape | scripts/run-migration.ts:20-23 | No statement contains ';', none is empty, none starts with "--", and none has leading or trailing whitespace. |
| Migration.StatementsInFileOrder | scripts/run-migration.ts:20-23 | The statements are exactly the kept trimmed pieces, in the order of the file. |
| Migration.KeepAllSelects | scripts/run-migration.ts:23 | The filter is an order-preserving selection that misses no kept piece. |
| Migration.CommentFirstLineDropsStatement | scripts/run-migration.ts:23 | A statement whose first line is a comment is dropped whole. |
| Migration.RunStatements | scripts/run-migration.ts:28-40 | The statements are sent in order, and the loop completes iff all succeed. Otherwise it stops at the first failure, with nothing after it sent. |
| Migration.RunMigration | scripts/run-migration.ts:11-52 | The exit code is 0 iff the file was read and every statement succeeded, and 1 otherwise. An unreadable file sends nothing. |
| Text.ContainsIff | lib/scoring/activities.ts:31-32 | The left-to-right `includes` scan finds a keyword exactly when it occurs in the name. |
| Text.TrimProperties | scripts/run-migration.ts:22 | A trimmed string is an infix of the original, with no whitespace at either end. |
| Text.SplitJoin | scripts/run-migration.ts:21 | Joining the pieces of a split with the separator gives back the original text. |
| Text.SplitPiecesWithoutSeparator | scripts/run-migration.ts:21 | No piece of a split contains the separator. |

## Left out

- Floating point: scores, minutes and heart rates are exact reals, so IEEE rounding and `toFixed` display formatting are not modelled. `Math.round` and `Math.trunc` are modelled on reals.
- Time zones: the server is taken to run in UTC. `getMonday`, `setDate` and `toLocaleDateString` work on UTC days. The `start_date_local` and `timezone` fields are carried but not interpreted.
- `toLowerCase` is modelled for ASCII letters only. Unicode case mapping is not modelled.
- Dates are day numbers and timestamps are milliseconds. ISO date strings and their rendering are not modelled. The lexicographic order of ISO week keys is the numeric order of their Monday day numbers.
- StravaApi.RateLimiter: Promise interleaving and `setTimeout` lateness are not modelled. After a wait, the clock is taken to be exactly the old reset time. The re-entrant `void this.processQueue()` is split into `ProcessQueue`, which runs up to `await task()`, and `TaskSettled`, which runs after it. The task's own result and errors are not modelled.
- HTTP, database and key-value calls are inputs: fetched pages, rows, stored entries and failure flags. `stravaRequest`, OAuth, the endpoint wrappers and `console` logging are not modelled.
- The key-value store's own TTL eviction is not modelled. Streaks.StreakStore and LeaderboardRoute.ResponseCache model it by the stored time and the age or expiry check.
- LeaderboardRoute.FetchLeaderboardData: the SQL view, its `ORDER BY composite_score DESC` and the 20-row limit on recent activities are not modelled. The ordering is a precondition of `RankedGapsTelescope` only.
- LeaderboardRoute.FetchLeaderboardData: each athlete's streak is the input function `streakOf`. The route's own calls to `calculateSmartStreak` are in Streaks.
- StravaApi.TeamActivities: the in-place `Array.sort` is modelled as a sort on values. Its stability, the order of equal start dates, is not stated.
- HRZones.WeekStartDate: the source mutates a `Date` with `setDate`. It is modelled as a function on day numbers.
- LeaderboardRoute.DayOfMonth is a helper for `getDate()` and has no row of its own.
- The route's and the pages' React rendering, authentication (lib/auth), the sync and admin routes, and all scripts/*.js files are outside the modelled core.

## Findings

| source | as written | input that shows it | evidently intended | confidence | as-written member | corrected member |
|---|---|---|---|---|---|---|
| lib/scoring/heartrate.ts:129-138 | The hours are `Math.floor(minutes / 60)` and the minutes `Math.round(minutes % 60)`, so the minutes part is rounded after the hours are fixed. | 119.6 minutes shows "1h 60m", and 59.6 minutes shows "60m". | Round first and carry: "2h 0m" and "1h 0m", with the minutes part always below 60. | not executed | HeartRate.FormatZoneMinutesShowsSixty | HeartRate.FormatZoneMinutesCarriedShape |
