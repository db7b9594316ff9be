# Habit tracker analytics, modelled in Dafny

This project models the analytics engine of a small habit tracker. A habit
is a record with an id, a name, a kind (yes/no, counter or timer), a
frequency (daily or weekly), a creation day, a stored best streak, an
optional target and a log of completion values keyed by day. Each value is
either a boolean or a number. From that log the app derives several things:

- date keys `YYYY-MM-DD`, their parse, year membership, day differences,
  week numbers and the lists of the last N days or of a year's days
  (`Calendar`);
- the two completion tests used across the app (`Habits`):
  - "completed against the target": booleans as they are, numbers `>= target`;
  - plain truthiness: any `true` or non-zero number;
- the load-time migration of stored habits (`Habits`);
- the current streak counted back from today, in both the target-aware and
  the truthy variant (`Streaks`);
- the habit list card (`HabitList`): consistency, the "done today" check,
  the daily-only statistics and the counter's increment and decrement;
- adding a habit and marking a habit done with its best-streak update
  (`Index`);
- the statistics list's completion rate, with daily or weekly expected
  occurrences (`HabitStats`);
- the trend graph (`ProductivityGraph`): eight weekly or six monthly
  windows, with their trend insights;
- the month-to-date summary (`MonthlySummary`), with best and worst habit;
- the year review (`YearReview`): per-day completions in the review year,
  the monthly breakdown, best and worst month, per-habit year rates, the
  discipline score, its label and the summary's conclusion band;
- the statistics page's headline figures (`StatsPage`);
- the 90-day heatmap (`Heatmap`): per-day counts, intensity bands, tooltip
  bands and week columns;
- the timer card (`Timer`): its `h:mm:ss` display and its running/elapsed
  state machine (`Timer.TimerCard`).

Counting by day, shared by the graph, the summary and the year review, sits in
`Tally`. Percentages, rounding and clamping sit in `Counting`; first/last
extreme selection sits in `Extremes`; digits, padding and splitting sit in
`Text`.

Modelling choices:

- A day is an integer day number. The civil view `(year, month index,
  day)` is derived from it, and weekday 0 is Sunday.
- "Today" is always a parameter.
- The log is a `map<Day, CV>` with `CV = Bool(flag) | Num(amount)`.
- JavaScript's `Math.round` of a non-negative ratio is modelled exactly: as
  `(200c + p) div 2p` for percentages, and over `real` for the statistics
  page's average and the discipline score.
- Code that loops and updates counters is modelled as methods with loops,
  each proved against a specification function. This covers the key lists,
  the streak walks, the window tallies, the per-day heatmap counts and week
  columns, and the year review's dictionary and counts.
- The timer card is a class whose methods change `isRunning` and
  `localElapsed`.

Where the app's help text and the computing code differ, the model follows
the code. The discipline score is one example. The help text in
src/components/InfoModal.tsx:34-64 lists four weighted parts: completion rate
40%, streak strength 30% with the current streak capped at 21 days,
consistency 20% and recovery 10%. The score computed in
src/pages/YearReview.tsx:141-165 has three parts. The year's average monthly
showing-up rate is weighted 0.4 (in a variable named `consistencyScore`). The
longest streak, measured against at most 30 tracked days, is weighted 0.3.
The recovery part is weighted 0.3. No separate consistency part exists.

## Model

| member | source | states |
|---|---|---|
| Calendar.CivilFacts | src/lib/dateUtils.ts:35-37 | every day has a civil date whose day of month lies within its month's length, and the day is that month's first day plus the day of month minus one |
| Calendar.CivilUnique | src/lib/dateUtils.ts:35-37 | a civil date that fits a day is that day's civil view, so year, month and date are well defined |
| Calendar.CivilOf | src/components/ProductivityGraph.tsx:101 | the k-th day after a month's first day (k below the month's length) has that year, that month and date k+1, so advancing `setDate(getDate()+1)` walks the calendar |
| Calendar.YearBefore | src/pages/YearReview.tsx:105 | a day's year is before `y` exactly when the day is before January 1 of `y` |
| Calendar.DayOfWeek | src/components/ProductivityGraph.tsx:69 | `getDay()` is always one of 0..6 |
| Calendar.DayOfWeekNext | src/components/CalendarHeatmap.tsx:84-85 | the weekday of the next day is the following weekday, wrapping Saturday to Sunday |
| Calendar.NextMonthStart | src/components/ProductivityGraph.tsx:94-95 | a month's first day plus its length is the next month's first day, December rolling into January of the next year |
| Calendar.MakeDayMonthBounds | src/components/MonthlySummary.tsx:32-33 | `new Date(y, m, 1)` is the month's first day and `new Date(y, m + 1, 0)` its last day, for years from 100 on |
| Calendar.MakeDayInYear | src/lib/dateUtils.ts:46 | `new Date(y, m, d)` counts `d - 1` days from the first of month `m`, with years 0..99 taken as 1900..1999 |
| Calendar.CivilKeyShape | src/lib/dateUtils.ts:34-39 | a key is the year's digits, `-`, the 1-based month in two digits, `-`, the day in two digits |
| Calendar.DateKeyInjective | src/lib/dateUtils.ts:34-39 | different days never share a key |
| Calendar.ParseCivilKey | src/lib/dateUtils.ts:44-48 | parsing a key of a non-negative year rebuilds the day with `new Date(year, month - 1, day)` |
| Calendar.ParseDateKeyRoundTrip | src/lib/dateUtils.ts:34-48 | parsing a day's key gives back that day, for years from 100 on |
| Calendar.ParseDateKeyTwoDigitYear | src/lib/dateUtils.ts:44-48 | a key of a year 0..99 parses, but into the 1900s, after the day it was made from |
| Calendar.IsInYearIffYear | src/lib/dateUtils.ts:119-121 | the prefix test `"<y>-"` on a day's key holds exactly when the day's year is `y`, in both directions, negative years included |
| Calendar.DaysBetween | src/lib/dateUtils.ts:53-66 | after truncating both instants to midnight, the floor of the difference in days is the difference of day numbers: 0 on the same day and antisymmetric |
| Calendar.CeilDiv | src/components/HabitStatsList.tsx:56 | `Math.ceil(a / b)` is the least `q` with `a <= q * b` |
| Calendar.CeilDivMonotone | src/components/HabitStatsList.tsx:56 | the ceiling of a quotient never decreases as the dividend grows |
| Calendar.WeekOfYearJanuaryFirst | src/lib/dateUtils.ts:126-132 | `getWeekOfYear` is 1 at midnight starting January 1 |
| Calendar.WeekOfYearMonotone | src/lib/dateUtils.ts:126-132 | within one year a later instant never gets a smaller week number |
| Calendar.WeekOfYearJanuaryFirstLater | src/lib/dateUtils.ts:126-132 | as written, any instant of January 1 after midnight is already week 2 (see Findings) |
| Calendar.WeekOfYearFromJanuaryByDay | src/lib/dateUtils.ts:126-132 | with floor in place of ceil, the week is the 0-based day of the year divided by 7, plus 1: January 1 to 7 form week 1 at every time of day |
| Calendar.WeekOfYearFromJanuaryBounds | src/lib/dateUtils.ts:126-132 | the corrected week number lies in 1..53 |
| Calendar.GetLastNDays | src/lib/dateUtils.ts:71-82 | the push loop yields the keys of the `max(n, 0)` consecutive days ending today, oldest first |
| Calendar.LastNDaysRange | src/lib/dateUtils.ts:71-82 | those days strictly increase and the last is today |
| Calendar.LastNDaysEndsToday | src/lib/dateUtils.ts:71-82 | the last key is today's key |
| Calendar.KeysOfDistinct | src/lib/dateUtils.ts:71-82 | equal keys in a key list come from equal days |
| Calendar.GetYearDates | src/lib/dateUtils.ts:87-98 | the loop yields the keys of the days from January 1 up to the earlier of December 31 and today |
| Calendar.YearBounds | src/lib/dateUtils.ts:89-90 | `new Date(year, 0, 1)` and `new Date(year, 11, 31)` are the first and last day of the year |
| Calendar.YearDaysBeforeStart | src/lib/dateUtils.ts:87-98 | the list is empty when January 1 is after today |
| Calendar.YearDaysSpan | src/lib/dateUtils.ts:87-98 | every listed day lies between January 1 of the year and January 1 of the next |
| Calendar.YearDaysInYear | src/lib/dateUtils.ts:87-98 | every listed day has the requested year |
| Calendar.YearDateKeyInYear | src/lib/dateUtils.ts:119-121 | a day of year `y` has a key that passes `isInYear(key, y)` |
| Habits.TargetOf | src/components/HabitList.tsx:102 | `habit.target \|\| 1`: a missing or zero target becomes 1, any other target is kept, and the result is never 0 |
| Habits.Entry | src/components/HabitList.tsx:101 | the optional lookup is present exactly for logged days and then carries the logged value |
| Habits.CompletedIsTruthy | src/components/HabitList.tsx:42-47 | with a target of at least 1, a completed value is also truthy |
| Habits.TruthyNotCompleted | src/components/HabitList.tsx:42-47 | the converse fails: a count of 1 is truthy yet not completed against a target of 2, so the two tests stay distinct |
| Habits.EntryInDays | src/components/HabitList.tsx:87-90 | a day is among the completed (truthy) days exactly when its entry is completed (truthy), so the filtered count is the size of that set |
| Habits.Migrate | src/pages/Index.tsx:68-72 | migration keeps every field but fills a missing creation day with today and a missing best streak with 0 |
| Habits.MigrateIdempotent | src/pages/Index.tsx:68-72 | migrating an already migrated habit again, on any later day, changes nothing |
| Habits.MigrateComplete | src/pages/Stats.tsx:34-38 | a complete habit that is stored and migrated comes back unchanged |
| Streaks.RunEndingAt | src/components/HabitList.tsx:53-66 | the run length never exceeds the number of completed days, which is what bounds the backward walk |
| Streaks.RunIsMaximal | src/components/HabitList.tsx:56-64 | the k days ending at the given day are all done and the day before them is not |
| Streaks.RunUnique | src/components/HabitList.tsx:56-64 | any k with that property is the run length |
| Streaks.CurrentStreak | src/components/HabitList.tsx:38-67 | the `while (true)` walk back from today returns the run of completed days ending today |
| Streaks.StreakZeroUnlessToday | src/components/HabitList.tsx:49-51 | the streak is 0 whenever today's entry is not completed, whatever the history |
| Streaks.StreakWhenToday | src/components/HabitList.tsx:53-66 | otherwise the streak k lies in 1..(number of completed entries), today back to today-(k-1) are completed and today-k is not |
| Streaks.TruthyStreak | src/pages/Index.tsx:33-55 | the truthy walk returns the run of truthy days ending today |
| Streaks.TruthyStreakZeroUnlessToday | src/pages/Index.tsx:37-39 | it is 0 whenever today's entry is falsy |
| Streaks.TruthyStreakWhenToday | src/pages/Index.tsx:41-54 | otherwise it counts the consecutive truthy days back from today, and the day before them is falsy |
| HabitList.Consistency | src/components/HabitList.tsx:69-93 | 0 when the days since creation (inclusive) are not positive, otherwise the rounded percentage of completed entries per day |
| HabitList.ConsistencyAtMost100 | src/components/HabitList.tsx:81-92 | when every completed entry lies between creation and today, consistency is at most 100 |
| HabitList.ConsistencyCanPass100 | src/components/HabitList.tsx:87-92 | consistency is not capped: two completed entries on a habit created today give 200 |
| HabitList.DoneTodayIsCompleted | src/components/HabitList.tsx:105-107 | "done today" implies completed; a yes/no habit needs exactly `true` (a logged 5 does not count), a counter or timer needs a number (a logged `true` does not count) |
| HabitList.CardStatsOf | src/components/HabitList.tsx:109-117 | weekly habits get no streak, best or consistency; daily habits get the completed run ending today, the stored best streak and the consistency |
| HabitList.CurrentValue | src/components/HabitList.tsx:120 | the shown value is today's number when one is logged, otherwise 0 |
| HabitList.Increment | src/components/HabitList.tsx:178 | increment stores v+1 and flags it completed exactly when v+1 reaches the target |
| HabitList.Decrement | src/components/HabitList.tsx:179 | decrement stores `max(0, v-1)`, never negative |
| HabitList.DecrementFlagAgrees | src/components/HabitList.tsx:179 | for a non-negative count, the decrement's flag agrees with the completion test of the stored value |
| HabitList.IncrementThenDecrement | src/components/HabitList.tsx:178-179 | decrementing right after incrementing restores a non-negative count |
| Index.NewHabit | src/pages/Index.tsx:88-93 | a new habit has empty completions, today as creation day, best streak 0 and no target |
| Index.AddHabit | src/pages/Index.tsx:87-96 | adding appends exactly one new habit and leaves the existing ones in place and in order |
| Index.MarkDone | src/pages/Index.tsx:99-123 | only the habits whose id matches change; every other habit is returned identical |
| Index.MarkHabitEntries | src/pages/Index.tsx:103-106 | after marking, today's entry is `true`, every other entry and every other field is unchanged |
| Index.MarkHabitBest | src/pages/Index.tsx:109-112 | the new best streak never decreases, is at least 1 and is at least the truthy run ending today |
| Index.MarkHabitIdempotent | src/pages/Index.tsx:101-119 | marking a habit twice on the same day is the same as marking it once |
| Index.MarkDoneIdempotent | src/pages/Index.tsx:99-123 | the same holds for the whole list |
| HabitStats.ExpectedOccurrences | src/components/HabitStatsList.tsx:50-58 | expected occurrences are at least 1: `max(1, days + 1)` for daily and `max(1, ceil(days / 7))` for weekly habits, so the `<= 0` return is unreachable |
| HabitStats.WeeksFromMidnights | src/components/HabitStatsList.tsx:56 | the ceiling over milliseconds between midnights is the ceiling over days |
| HabitStats.CompletionRate | src/components/HabitStatsList.tsx:31-67 | the rounded percentage of completed over expected entries, clamped to 0..100: always in 0..100, and exactly 100 when the completed entries outnumber the expected ones |
| HabitStats.CompletionRateRounds | src/components/HabitStatsList.tsx:62-66 | when the completed entries do not outnumber the expected ones, the rate is exactly the rounded percentage |
| HabitStats.WeeklyExample | src/components/HabitStatsList.tsx:56-66 | a weekly habit created 21 days ago with two completed entries has rate 67 |
| HabitStats.TotalCompletions | src/components/HabitStatsList.tsx:82 | "times done" never exceeds the number of entries |
| HabitStats.TotalCompletionsCounts | src/components/HabitStatsList.tsx:73-82 | logging a new day raises "times done" by one exactly when the new value is completed against the target (default 1) |
| Tally.HabitsOn | src/components/ProductivityGraph.tsx:60-75 | on any day at most every habit counts |
| Tally.DaysFor | src/components/MonthlySummary.tsx:56-77 | one habit counts on at most as many days as the window has |
| Tally.DoneOnAtMostPossible | src/components/ProductivityGraph.tsx:65-73 | on any day no more habits are done than possible |
| Tally.DoneInAtMostPossible | src/components/ProductivityGraph.tsx:58-76 | over a window no more habit-days are done than possible |
| Tally.DoneForAtMostPossible | src/components/MonthlySummary.tsx:56-77 | for one habit no more days are done than possible |
| Tally.DoneForAllAtMostPossible | src/components/MonthlySummary.tsx:79-80 | summed over habits no more days are done than possible |
| Tally.HabitsForIsDaysIn | src/components/MonthlySummary.tsx:48-80 | counting habit by habit (the summary) and day by day (the graph) gives the same totals |
| ProductivityGraph.TallyDay | src/components/ProductivityGraph.tsx:60-75 | one day's habit loop counts the habits eligible that day (daily, or weekly on a Sunday, from creation on), and those completed |
| ProductivityGraph.TallyWindow | src/components/ProductivityGraph.tsx:58-76 | a window's day loop stops at the earlier of its end and today and counts completed at most possible |
| ProductivityGraph.WindowPointScores | src/components/ProductivityGraph.tsx:78-80 | a window's productivity lies in 0..100, is 0 with nothing possible and otherwise is the rounded percentage |
| ProductivityGraph.WeeklyPoints | src/components/ProductivityGraph.tsx:48-89 | no habits give an empty series; otherwise exactly 8 weekly windows, oldest first |
| ProductivityGraph.WeekWindowsTile | src/components/ProductivityGraph.tsx:49-88 | window `W(8-offset)` spans the 7 days ending today-7·offset, consecutive windows abut and the last ends today |
| ProductivityGraph.MonthlyPoints | src/components/ProductivityGraph.tsx:93-131 | no habits give an empty series; otherwise exactly 6 monthly windows, oldest first |
| ProductivityGraph.MonthPointAt | src/components/ProductivityGraph.tsx:94-130 | each month's loop body builds that month's window point |
| ProductivityGraph.MonthWindowStartIs | src/components/ProductivityGraph.tsx:94 | `new Date(y, m - offset, 1)` is the first of the month reached by rolling back across year ends |
| ProductivityGraph.MonthWindowEndIs | src/components/ProductivityGraph.tsx:95 | `new Date(y, m + 1, 0)` from a month's first day is that month's last day |
| ProductivityGraph.MonthWindowIsMonth | src/components/ProductivityGraph.tsx:94-96 | each monthly window is one whole calendar month |
| ProductivityGraph.MonthWindowsConsecutive | src/components/ProductivityGraph.tsx:93-96 | each month's window starts the day after the previous one ends |
| ProductivityGraph.CurrentMonthHoldsToday | src/components/ProductivityGraph.tsx:93-101 | the last window is the current month and contains today |
| ProductivityGraph.MonthWindowsTile | src/components/ProductivityGraph.tsx:93-101 | the six windows are whole consecutive months ending with the one holding today |
| ProductivityGraph.GetInsights | src/components/ProductivityGraph.tsx:137-160 | no insights below 2 points; otherwise the trend is up exactly when the change exceeds 2 and down exactly when it is below -2, the change is clamped to ±100, and the best period is the first window of maximal productivity with a 1-based index |
| ProductivityGraph.InsightsChangeUnclamped | src/components/ProductivityGraph.tsx:142-155 | with productivities in 0..100 the clamp never changes the difference |
| MonthlySummary.ShowedForMeaning | src/components/MonthlySummary.tsx:61-76 | a habit contributes a date exactly when the date is in the counted span and the habit counts as done on it |
| MonthlySummary.ShowedUpMeaning | src/components/MonthlySummary.tsx:45-77 | a date is in the shown-up set exactly when some habit is done on it in the span |
| MonthlySummary.TallyHabit | src/components/MonthlySummary.tsx:53-77 | one habit's day loop skips days before creation, counts daily habits daily and weekly ones on Sundays, and collects its done dates |
| MonthlySummary.MonthSummary | src/components/MonthlySummary.tsx:26-111 | none without habits; otherwise the month, the clamped overall rate, the distinct days shown up, the days so far, the first best habit after the stable sort, and the last worst habit only with two or more habits |
| MonthlySummary.StatBounds | src/components/MonthlySummary.tsx:82-84 | a habit's completed count is at most its possible count, and its rate lies in 0..100 and is 0 with nothing possible |
| MonthlySummary.TotalsAreSums | src/components/MonthlySummary.tsx:79-80 | the totals are the sums of the per-habit counts |
| MonthlySummary.DaysShowedUpBound | src/components/MonthlySummary.tsx:106-107 | days showed up never exceed today's day of month, which is the days-in-month figure shown |
| MonthlySummary.SummaryRateIsGraphPoint | src/components/MonthlySummary.tsx:94-96 | the summary's completion rate equals the graph's current-month productivity |
| YearReview.TruthyInYear | src/pages/YearReview.tsx:100-102 | a habit's year entries are among its truthy days |
| YearReview.TruthyInYearByKey | src/pages/YearReview.tsx:100-102 | a day is a year entry exactly when its value is truthy and its key passes the year test |
| YearReview.KeyInYear | src/pages/YearReview.tsx:48 | the key test on a day is exactly "the day is in the review year" |
| YearReview.YearHit | src/pages/YearReview.tsx:48 | an entry is counted exactly when truthy and keyed in the review year |
| YearReview.YearHitsAreTruthyInYear | src/pages/YearReview.tsx:47-51 | the counted entries of a habit are its year entries |
| YearReview.AddYearEntries | src/pages/YearReview.tsx:47-52 | one habit's pass adds 1 to the count of each of its year days and its number of year days to the total |
| YearReview.YearCountsMeaning | src/pages/YearReview.tsx:43-55 | the dictionary's dates are the tracked days, each maps to the number of habits with an entry that day, and there are no more dates than entries |
| YearReview.YearCompletions | src/pages/YearReview.tsx:43-55 | the loops build that dictionary and total, so days tracked never exceed total completions |
| YearReview.ShowingUp | src/pages/YearReview.tsx:84 | 0 with nothing possible, otherwise in 0..100 when completed is at most possible |
| YearReview.TallyYearDay | src/pages/YearReview.tsx:73-81 | one day's habit loop counts daily habits from creation on in the review year, and the truthy ones |
| YearReview.TallyYearMonth | src/pages/YearReview.tsx:71-82 | a month's day loop stops at the earlier of month end and today |
| YearReview.MonthlyBreakdown | src/pages/YearReview.tsx:61-91 | at most 12 months in month order, each starting no later than today, stopping at the first month that starts after today |
| YearReview.MonthDaysInReviewYear | src/pages/YearReview.tsx:71-75 | every day of a review-year month is in the review year, so the key test there never filters |
| YearReview.MonthDataBounds | src/pages/YearReview.tsx:68-84 | each month has completed at most possible and productivity in 0..100, 0 with nothing possible |
| YearReview.WithData | src/pages/YearReview.tsx:94 | exactly the months with something possible, from the breakdown |
| YearReview.BestMonth | src/pages/YearReview.tsx:94-95 | none without months of data; otherwise a month with data whose productivity is at least every such month's and strictly above every month with data before it, so the first of tied months wins |
| YearReview.WorstMonth | src/pages/YearReview.tsx:94-96 | none without months of data; otherwise a month with data whose productivity is at most every such month's and strictly below every month with data before it, so the first of tied months wins |
| YearReview.TotalCompletedAtMostPossible | src/pages/YearReview.tsx:135-136 | the summed completions never exceed the summed possible days |
| YearReview.AvgShowingUpBounds | src/pages/YearReview.tsx:135-137 | the average showing-up percentage lies in 0..100 |
| YearReview.HabitWindowIsOverlap | src/pages/YearReview.tsx:104-106 | a habit's counting window runs from the later of creation and January 1 to the earlier of today and December 31 |
| YearReview.HabitYearRateCanPass100 | src/pages/YearReview.tsx:100-113 | the habit year rate is not capped: an entry from before creation makes a one-day habit score 200 |
| YearReview.CountPossibleDays | src/pages/YearReview.tsx:108-111 | the day loop counts every day of the window for daily habits and none for weekly ones |
| YearReview.HabitYearStat | src/pages/YearReview.tsx:100-120 | one habit's year entries, rate (0 with no possible days) and best streak |
| YearReview.HabitYears | src/pages/YearReview.tsx:99-121 | one such record per habit, in order |
| YearReview.MostConsistent | src/pages/YearReview.tsx:123 | none without habits; otherwise the first habit whose rate is at least every habit's |
| YearReview.MostStruggled | src/pages/YearReview.tsx:124 | none without habits; otherwise the first habit whose rate is at most every habit's |
| YearReview.LongestStreak | src/pages/YearReview.tsx:126-132 | the running maximum of best streaks, 0 without habits |
| YearReview.RecoveriesBound | src/pages/YearReview.tsx:148-158 | recoveries and slumps each number at most one fewer than the months with data |
| YearReview.RecoveryCounts | src/pages/YearReview.tsx:148-158 | the loop counts recoveries (a month under 50 followed by a higher one) and slumps (a month under 40 before another) |
| YearReview.RecoveryScore | src/pages/YearReview.tsx:146-165 | 50 below two months; `min(100, 100·recoveries/slumps)` with slumps; with no slumps 80 when the average exceeds 60, else 50; always in 0..100 |
| YearReview.StreakScore | src/pages/YearReview.tsx:144 | the streak part lies in 0..30 and is 0 when no day was tracked |
| YearReview.DisciplineScoreBounds | src/pages/YearReview.tsx:139-167 | the rounded weighted sum lies in 0..100 |
| YearReview.DisciplineScorePerfect | src/pages/YearReview.tsx:139-167 | a perfect year with a 30-day streak scores 94, not 100, because no slumps cap recovery at 80 |
| YearReview.SlumpsNone | src/pages/YearReview.tsx:155-157 | with every month at 40 or more there is no slump |
| YearReview.DisciplineLabel | src/pages/YearReview.tsx:216-222 | the label bands are 80 and up, 60..79, 40..59, 20..39 and below 20, each exactly |
| YearReview.DisciplineLabelMonotone | src/pages/YearReview.tsx:216-222 | a higher score never gets a lower label |
| YearReview.ConclusionOf | src/pages/YearReview.tsx:189-198 | the conclusion bands are 70 and up, 50..69, 30..49 and below 30, each exactly |
| YearReview.ScoreDiscipline | src/pages/YearReview.tsx:139-167 | the score computed from the counted recoveries and slumps is the discipline score of the months with data |
| YearReview.YearDataOf | src/pages/YearReview.tsx:38-182 | the year data's figures: total entries with days tracked at most that total, the breakdown, best and worst month, the average in 0..100, longest streak, most consistent and most struggled habit, the score in 0..100, and data present exactly with habits and entries |
| YearReview.SummaryConclusion | src/pages/YearReview.tsx:184-198 | no summary without data, otherwise the conclusion band of the average |
| StatsPage.DaysTrackedAtMostEntries | src/pages/Stats.tsx:56-66 | the distinct truthy dates never outnumber the truthy entries |
| StatsPage.HabitConsistency | src/pages/Stats.tsx:76-84 | a habit's consistency is never negative |
| StatsPage.HabitConsistencyAtMost100 | src/pages/Stats.tsx:79-82 | it is at most 100 when every truthy entry lies between creation and today |
| StatsPage.HabitConsistencyCanPass100 | src/pages/Stats.tsx:79-82 | it is not capped: two truthy entries on a habit created today give 200 |
| StatsPage.ConsistencySumAtMost | src/pages/Stats.tsx:76-84 | bounded consistencies have a sum at most 100 per habit |
| StatsPage.AverageConsistencyBounds | src/pages/Stats.tsx:86 | then the rounded average lies in 0..100 |
| StatsPage.AddTruthyEntries | src/pages/Stats.tsx:61-66 | one habit's entry loop adds its truthy dates to the set and their number to the total |
| StatsPage.CollectEntries | src/pages/Stats.tsx:56-70 | the first pass yields all truthy dates, the number of truthy entries and the largest best streak (0 if none is positive) |
| StatsPage.TotalConsistency | src/pages/Stats.tsx:72-84 | the second pass sums the habits' consistencies |
| StatsPage.CalculateStats | src/pages/Stats.tsx:46-94 | all zero without habits; otherwise distinct days, entries, longest streak and rounded average consistency, with days at most entries |
| Counting.RoundPercent | src/components/HabitList.tsx:92 | `Math.round(c / p * 100)` is the integer r with `r - 1/2 <= 100c/p < r + 1/2` |
| Counting.RoundPercentAtMost100 | src/components/MonthlySummary.tsx:82-84 | the rounded percentage of a part of a whole is at most 100 |
| Counting.RoundPercentAtLeast100 | src/components/HabitStatsList.tsx:62-66 | the rounded percentage of more than the whole is at least 100, so the clamp yields 100 |
| Counting.RoundPercentEnds | src/components/MonthlySummary.tsx:82-84 | all done is 100 and nothing done is 0 |
| Counting.ClampedPercent | src/components/ProductivityGraph.tsx:78-80 | the clamped percentage lies in 0..100, is 0 with nothing possible, is the plain rounded percentage when completed is at most possible and is exactly 100 when completed exceeds possible |
| Counting.RoundReal | src/pages/Stats.tsx:86 | `Math.round(x)` is the integer r with `r - 1/2 <= x < r + 1/2` |
| Counting.SizeWithinRange | src/components/MonthlySummary.tsx:106-107 | a set of days within a span has at most the span's length of members |
| Extremes.FirstMax | src/components/MonthlySummary.tsx:99-100 | the first position holding the maximum, which is what a stable descending sort puts first |
| Extremes.LastMin | src/components/MonthlySummary.tsx:99-101 | the last position holding the minimum, which is what a stable descending sort puts last |
| Extremes.FirstMin | src/pages/YearReview.tsx:124 | the first position holding the minimum, which is what a strict `<` reduce keeps |
| Extremes.MaxOrZero | src/pages/Stats.tsx:67-69 | the running maximum started at 0: at least 0, at least every element, and 0 or one of the elements |
| Heatmap.Last90Days | src/components/CalendarHeatmap.tsx:27-38 | 90 keys of consecutive days, oldest first, the last being today's |
| Heatmap.DayRangeConsecutive | src/components/CalendarHeatmap.tsx:27-38 | the listed days follow each other one by one |
| Heatmap.TruthyOn | src/components/CalendarHeatmap.tsx:60-65 | a day's count is at most the number of habits |
| Heatmap.DayCounts | src/components/CalendarHeatmap.tsx:59-68 | one count per listed day, each the number of habits with a truthy entry that day |
| Heatmap.CountDay | src/components/CalendarHeatmap.tsx:60-65 | the habit loop counts the habits with a truthy entry on the day |
| Heatmap.CountPerDay | src/components/CalendarHeatmap.tsx:59-68 | every listed day, and no other, gets its count, and the maximum is the largest count (0 if none), at most the number of habits |
| Heatmap.IntensityByQuarters | src/components/CalendarHeatmap.tsx:40-47 | 0 is empty; otherwise with `m = max(maxCount, 1)`, `4c <= m` is faint, `2c <= m` low, `4c <= 3m` medium and above that full |
| Heatmap.IntensityMonotone | src/components/CalendarHeatmap.tsx:40-47 | a larger count never gets a fainter band |
| Heatmap.BusiestDayIsFull | src/components/CalendarHeatmap.tsx:42-46 | the day holding a positive maximum is always in the full band |
| Heatmap.TooltipOf | src/components/CalendarHeatmap.tsx:104-109 | 0 is "nothing done", 1 "a start", 2..3 "respectable" and above "locked in", the last two carrying the count |
| Heatmap.TooltipMonotone | src/components/CalendarHeatmap.tsx:104-109 | a larger count never gets a lower tooltip band |
| Heatmap.EmptyDayAgrees | src/components/CalendarHeatmap.tsx:40-47 | the intensity is empty exactly when the tooltip says nothing was done |
| Heatmap.PadTo | src/components/CalendarHeatmap.tsx:96-98 | the padding loop appends just enough blanks to reach 7 slots, none when the column is already full |
| Heatmap.PlaceDay | src/components/CalendarHeatmap.tsx:83-101 | placing one day keeps the grouping invariant: the closed columns and the open one hold the days so far in order, and with consecutive days each closed column has 7 slots and runs Sunday to Saturday |
| Heatmap.GroupWeeks | src/components/CalendarHeatmap.tsx:79-102 | dropping the blanks reproduces the days in order; there are columns exactly when there are days; every column has at least 7 slots; the first opens with weekday-of-first-day blanks; for consecutive days every column has exactly 7 slots, every column after the first starts on a Sunday and every column before the last ends on a Saturday |
| Timer.ClockOf | src/components/HabitCardTimer.tsx:11-13 | the split satisfies `3600h + 60m + s = total` with `m, s < 60` |
| Timer.FormatTimeFields | src/components/HabitCardTimer.tsx:15-18 | the display has three fields (hours, then two-digit minutes and seconds) with a whole hour, else two fields |
| Timer.FormatTimeHasHours | src/components/HabitCardTimer.tsx:15-18 | the display shows hours exactly from 3600 seconds on |
| Timer.FormatTimeRoundTrip | src/components/HabitCardTimer.tsx:10-19 | reading the display back gives the seconds it was made from |
| Timer.TimerCard.constructor | src/components/HabitCardTimer.tsx:26-27 | a card starts stopped and showing the stored seconds |
| Timer.TimerCard.Sync | src/components/HabitCardTimer.tsx:34-36 | a new stored value replaces the shown seconds and leaves running alone |
| Timer.TimerCard.Tick | src/components/HabitCardTimer.tsx:39-54 | a tick, allowed only while running and not complete, adds exactly 1; reaching `targetMinutes·60` stops the card and reports the new value as completed, otherwise it reports nothing; a complete card is stopped |
| Timer.TimerCard.RunToTarget | src/components/HabitCardTimer.tsx:39-62 | ticking a running card until it stops ends at exactly the target seconds, reported as completed |
| Timer.TimerCard.Play | src/components/HabitCardTimer.tsx:135 | play, offered only on a stopped card that is not complete, starts it and keeps the seconds |
| Timer.TimerCard.Pause | src/components/HabitCardTimer.tsx:65-68 | pause stops the card, keeps the seconds and reports them with the completion flag, which is false there |
| Timer.TimerCard.Reset | src/components/HabitCardTimer.tsx:70-74 | reset, offered only on a card that is not complete and has some seconds, stops the card, sets the seconds to 0 and reports (0, false) |
| Timer.CardDoneIsListDone | src/components/HabitList.tsx:185-187 | seconds the card calls done are also done for the list, which compares them with the target in minutes |
| Timer.ListDoneIsNotCardDone | src/components/HabitCardTimer.tsx:29-30 | the converse fails: `target` seconds are done for the list but not for the card |

## Left out

- The clock and the time zone. Reading the current time and the reference-zone
  offset are not modelled; "today" is a day-number parameter, and an instant
  inside a day is a millisecond offset.
- Stored data. Reading and writing local storage and the JSON parse with its
  fallback are I/O. Only the migration of a parsed record is modelled.
- Rendering. Markup, class names, SVG paths, point and tooltip coordinates,
  and the timer's progress circle are not modelled. Neither are the month and
  weekday name tables, nor the summary sentence beyond its conclusion band.
- Floating point. Ratios are exact integers or reals, so the results stand
  for what IEEE doubles give without their rounding error.
- `Number()` on key fields is modelled for decimal digit strings only.
  Other numeric syntaxes (signs, spaces, exponents) parse to nothing.
- Creation day parse on the statistics page. `new Date(createdAt)` there reads
  the key as UTC midnight. The model uses the creation day itself, so
  time-zone shifts and daylight-saving effects on that difference are not
  modelled.
- Interval scheduling. Each firing of the timer's one-second interval is a
  `Tick` call; repeated firing until the target is `RunToTarget`.
- Key re-parsing in the heatmap. `new Date(day + "T00:00:00")` is modelled
  as the weekday of the listed day itself.
- Log keys. The log is keyed by day numbers rather than key strings. Key
  strings are modelled separately, with their injectivity and round trip.
- Iteration order. The order in which a habit's entries are visited is
  abstracted: each loop draws any remaining entry. All results are
  order-independent sets and counts.
- The summary's stable sort is modelled by what it yields: the first
  maximum and the last minimum of the rates.
- The parent's handler that receives counter and timer updates is not part
  of this model. Increment, decrement and the timer only produce the
  reported `(value, completed)` pairs.
- Timer.TimerCard: the target minutes are fixed for the card's lifetime.
  A changed target property is not modelled.
- Timer.FormatTime: takes a non-negative number of seconds. Negative stored
  values are not modelled.
- Calendar.ParseDateKeyRoundTrip: the round trip holds from year 100 on.
  For years 0..99, `new Date` moves the parse into the 1900s, as
  Calendar.ParseDateKeyTwoDigitYear states.
- Calendar.MakeDayMonthBounds and Calendar.WeekOfYearJanuaryFirst: these
  calendar facts are stated for years from 100 on, where `new Date(y, ...)`
  does not remap the year. Calendar.WeekOfYearMonotone holds for every year.
- ProductivityGraph.MonthWindowsTile, ProductivityGraph.MonthWindowIsMonth and
  MonthlySummary.SummaryRateIsGraphPoint: the month-window lemmas are stated
  for years from 101 on, so that rolling back into the previous year stays
  clear of the two-digit remapping.
- MonthlySummary.DaysShowedUpBound: stated for years from 100 on.
- StatsPage.HabitConsistency: its bound of 100 is proved only for logs whose
  truthy entries lie between creation and today. HabitConsistencyCanPass100
  shows the bound fails otherwise.
- Weekly expected occurrences are counted two ways. The statistics list
  uses the ceiling of elapsed days over 7; the graph and the summary count
  Sundays. Both are modelled as written and not reconciled.

## Findings

| source | as written | input that shows it | evidently intended | confidence | as-written member | corrected member |
|---|---|---|---|---|---|---|
| src/lib/dateUtils.ts:126-132 | `Math.ceil(diff / oneWeek + 1)` is 1 only at the exact midnight starting January 1; any later instant of January 1 already gives 2 | January 1 of any year, 00:00:00.001 | January 1 to 7 form week 1, i.e. `Math.floor(diff / oneWeek) + 1` | not executed | Calendar.WeekOfYearJanuaryFirstLater | Calendar.WeekOfYearFromJanuaryByDay |
