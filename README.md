# Habit tracker: scoring, charts, validation and route guard

This project is a Dafny model of the logic at the centre of a habit-tracking web
application. Users keep a list of habits. They tick off the habits they
completed each day, set a pass target as a percentage, and look at charts of
their completions. The model covers these parts:

- **Calendar and day-stamps** (`calendar.dfy`, `daystamps.dfy`).
  - Days are integer day numbers, with day 0 = 1970-01-01, a Thursday.
  - Conversion to and from proleptic Gregorian dates is proved in both directions.
  - The week starts on Monday. The week start, the month start and the month length are defined on day numbers.
  - The `YYYY-MM-DD` stamps the application keys days by are modelled. Formatting and parsing are proved inverse.
  - Comparing stamps character by character is proved to order them exactly as their days. So the model keys and sorts by day number where the application keys and sorts by stamp.
- **Percentages** (`percentages.dfy`). This is `capacity === 0 ? 0 : Math.round(score / capacity * 100)` on exact rationals, with halves rounded up.
- **Charts** (`charts.dfy`).
  - The completion rows are folded into a per-day score.
  - Active days are counted in the current week and in the current month.
  - The 30-day series runs up to today.
  - The week and month series are built by summing per bucket, sorting by key and keeping the newest 12.
- **Day tracker** (`tracker_client.dfy`).
  - A habit's checked state merges the user's optimistic overrides with the completions loaded for the day.
  - The score, percentage and pass mark are derived from that state.
  - A toggle writes an override, which is reverted when the save fails.
  - The previous and next day are computed from the current one.
- **Server actions** (`tracker_actions.dfy`).
  - The pass-percentage, habit-name and template-selection checks.
  - The case-insensitive filter of template names.
  - The settings, habit and completion stores these actions write. The completion store is a set of (user, habit, day) triples, so the upsert keeps one row per triple.
- **Template picker** (`habits_client.dfy`). The set of selected templates, select-all, and the "already added" mark.
- **Route guard** (`middleware.dfy`).
  - Paths are classified as app routes and auth routes.
  - A redirect is decided from the path and whether the user is signed in.
  - The session cookies are copied onto the redirect.
- **Text** (`text.dfy`). JavaScript's `trim()` and the key `trim().toLowerCase()` under which habit names are compared.

Some inputs do not come from the code itself, so they are parameters of the model:

- the current day;
- the signed-in user;
- the database's errors;
- the uuid validator;
- the result of `Number(...)` on the pass-percentage field;
- the template list;
- the server's answer to a toggle.

Two details follow the code rather than the prose description of the system:

- The month series measures its percentage against `totalHabits * 30`, whatever the month's length.
- The charts count the completion rows of archived habits while counting only active habits in `totalHabits`. Chart percentages can therefore exceed 100.

## Model

| member | source | states |
|---|---|---|
| Calendar.DaysInMonth | src/app/app/charts/page.tsx:64 | a month has 28 to 31 days; February has 29 exactly in leap years |
| Calendar.FromDayNumber | src/app/app/charts/page.tsx:15-17 | every day number is a valid date, and that date's day number is the input |
| Calendar.RoundTripDate | src/app/app/charts/page.tsx:15-17 | converting a valid date to its day number and back gives the date |
| Calendar.DayNumber | src/app/app/tracker-client.tsx:62 | the day number of a date counted from 1970-01-01; its facts are `Calendar.FromDayNumber`, `Calendar.RoundTripDate`, `Calendar.DayNumberMonotone` and `Calendar.DayNumberInjective` |
| Calendar.DayNumberMonotone | src/app/app/charts/page.tsx:101-102 | an earlier date has a smaller day number |
| Calendar.DayNumberInjective | src/app/app/charts/page.tsx:53-57 | two valid dates have the same day number exactly when they are equal |
| Calendar.Weekday | src/app/app/charts/page.tsx:60 | the weekday of a day lies in 0..6, with Monday as 0 |
| Calendar.StartOfWeek | src/app/app/charts/page.tsx:60 | `startOfWeek(d, {weekStartsOn: 1})`: a Monday, on or at most six days before the day |
| Calendar.StartOfWeekUnique | src/app/app/charts/page.tsx:94 | the only Monday within the six days up to a day is its week start, so each day is in exactly one week bucket |
| Calendar.SameWeekIff | src/app/app/charts/page.tsx:94 | two days share a week bucket exactly when the later one is no further after the earlier one than the earlier one's Sunday |
| Calendar.StartOfMonth | src/app/app/charts/page.tsx:61 | `startOfMonth`: day 1 of the day's own year and month, and the input is day-of-month minus one days after it |
| Calendar.SameMonthIff | src/app/app/charts/page.tsx:113 | two days share a month bucket exactly when year and month agree, so one month in two years never collides |
| Calendar.MonthLength | src/app/app/charts/page.tsx:64 | `monthDayCount`: 28 to 31, and at least the day-of-month of the day |
| Calendar.LastOfMonth | src/app/app/charts/page.tsx:64 | the last day of a date's month is a date, and the day after it is a first of the month |
| Calendar.MonthLengthEndsMonth | src/app/app/charts/page.tsx:64 | the last counted day is still in the month, and the day after it is the first of the next month |
| Calendar.Successor | src/app/app/tracker-client.tsx:63 | the next calendar date is valid and its day number is one more |
| Calendar.NextDateIsSuccessor | src/app/app/tracker-client.tsx:63 | the date of day n + 1 is the calendar successor of the date of day n, across month and year ends |
| Calendar.PreviousDateIsPredecessor | src/app/app/tracker-client.tsx:62 | the date of day n - 1 is the date whose successor is the date of day n |
| Calendar.CalendarExamples | src/app/app/charts/page.tsx:60-64 | 1970-01-01 is day 0; 2024-01-01 is a Monday; February has 29 days in 2024 and 28 in 2023 |
| DayStamps.DaySchema | src/app/_actions/tracker.ts:7 | `/^\d{4}-\d{2}-\d{2}$/`: ten characters, digits with hyphens at positions 4 and 7; a shape only (`DayStamps.DaySchemaIsShapeOnly`, `DayStamps.SchemaIsPadded`) |
| DayStamps.ParseDayStamp | src/app/app/tracker-client.tsx:62-63 | `parseISO` of a `YYYY-MM-DD` stamp: the day it denotes, or nothing when it is not a date; it inverts `DayStamps.ToISODate` (`DayStamps.ParseToISODate`, `DayStamps.ToISODateParse`) |
| DayStamps.ToISODate | src/app/app/charts/page.tsx:15-17 | `format(d, "yyyy-MM-dd")` of a day always has the `YYYY-MM-DD` shape |
| DayStamps.ParseToISODate | src/app/app/charts/page.tsx:94 | parsing the stamp of a day gives the day back |
| DayStamps.ToISODateParse | src/app/app/tracker-client.tsx:62-63 | a string that parses as a date is the stamp of the day it denotes |
| DayStamps.SchemaIsPadded | src/app/_actions/tracker.ts:7 | a string of the `YYYY-MM-DD` shape is its three digit fields padded back to their widths |
| DayStamps.ToISODateInjective | src/app/app/charts/page.tsx:53-57 | two days have the same stamp exactly when they are the same day |
| DayStamps.ToISODateOrder | src/app/app/charts/page.tsx:101-102 | comparing stamps character by character orders them exactly as their days |
| DayStamps.PadOrder | src/app/app/charts/page.tsx:101-102 | zero-padded numbers of one width sort as the numbers do |
| DayStamps.DaySchemaIsShapeOnly | src/app/_actions/tracker.ts:7 | the pattern accepts `2024-13-99`, which is not a date, and refuses `2024-1-05` and a trailing blank |
| Percentages.Percent | src/app/app/tracker-client.tsx:51 | `total === 0 ? 0 : Math.round(score / total * 100)`, also used at lines 88, 108 and 127 of the charts page; its facts are the Percentages lemmas below, starting with `Percentages.PercentRounds` |
| Percentages.PercentRounds | src/app/app/charts/page.tsx:88 | the percentage is `Math.round` of the exact ratio: 100 * score / capacity lies within half a point below and above it; 0 when capacity is 0 |
| Percentages.PercentIsNearest | src/app/app/tracker-client.tsx:51 | the rounded value is the only integer within that half-open interval |
| Percentages.PercentAtMost100 | src/app/app/tracker-client.tsx:51 | a score within capacity gives at most 100 |
| Percentages.PercentEnds | src/app/app/tracker-client.tsx:51 | an empty score gives 0, and a full score gives 100 |
| Percentages.PercentMonotone | src/app/app/charts/page.tsx:108 | a larger score never gives a smaller percentage |
| Percentages.PercentFullIff | src/app/app/tracker-client.tsx:51 | below 200 capacity, 100 percent means a full score |
| Percentages.PercentRoundsUpToFull | src/app/app/tracker-client.tsx:51 | 199 of 200 and 200 of 201 already show 100 percent |
| Charts.FoldDailyScore | src/app/app/charts/page.tsx:53-57 | after the fold, each day's score is the number of rows on that day; absent days read 0, stored values are at least 1, keys are distinct, and the scores add up to the number of rows |
| Charts.FoldStepKeys | src/app/app/charts/page.tsx:56 | one `set` keeps the map's keys distinct and equal to the scored days, a new day going to the end |
| Charts.FoldStepCounts | src/app/app/charts/page.tsx:56 | one `set` turns the scores of the rows seen so far into the scores of those rows and one more |
| Charts.FoldStepTotal | src/app/app/charts/page.tsx:56 | one `set` adds one to the sum of the scores |
| Charts.DayTotalUpdate | src/app/app/charts/page.tsx:56 | overwriting one listed day's score changes the total by the difference |
| Charts.ActiveDaysBound | src/app/app/charts/page.tsx:63-77 | a range of days holds at most as many active days as it has days |
| Charts.ActiveDaysThisWeek | src/app/app/charts/page.tsx:63-70 | the count is the number of days with a positive score from this week's Monday up to today, at most weekday + 1 and at most 7 |
| Charts.ActiveDaysThisMonth | src/app/app/charts/page.tsx:64-77 | the count is the number of days with a positive score from the first of the month up to today, and at most today's day-of-month |
| Charts.DaySeries | src/app/app/charts/page.tsx:79-90 | 30 points on the consecutive days ending today, oldest first, each scored `dailyScore.get(key) ?? 0` with its percentage of the habit count |
| Charts.BucketKey | src/app/app/charts/page.tsx:94-113 | the bucket of a day: its week start for weeks, its month start for months; its facts are `Calendar.SameWeekIff`, `Calendar.SameMonthIff` and `Charts.BucketKeyShape` |
| Charts.InBuckets | src/app/app/charts/page.tsx:93-100 | a bucket occurs exactly when some day's key is that bucket |
| Charts.BucketKeyShape | src/app/app/charts/page.tsx:94-113 | every week bucket key is a Monday, and every month bucket key is the first of a month |
| Charts.BucketTotalOutside | src/app/app/charts/page.tsx:96-99 | a bucket no day falls in has total 0 |
| Charts.BucketTotalBump | src/app/app/charts/page.tsx:56 | one more row on a listed day adds one to the total of that day's bucket and leaves every other bucket's total alone |
| Charts.BucketTotalOfRows | src/app/app/charts/page.tsx:53-100 | over the tally of the rows, a bucket's summed score is the number of rows whose day falls in that bucket |
| Charts.InsertByKey | src/app/app/charts/page.tsx:101-102 | one insertion step of the sort adds exactly the element |
| Charts.PrependAscending | src/app/app/charts/page.tsx:101-102 | an entry whose key is below every key of an ascending list can go in front of it |
| Charts.InsertAscending | src/app/app/charts/page.tsx:101-102 | inserting into an ascending list of distinct keys keeps it ascending |
| Charts.SortByKey | src/app/app/charts/page.tsx:101-102 | the sort is a permutation of the bucket entries |
| Charts.SortAscending | src/app/app/charts/page.tsx:101-102 | entries with distinct keys come out in strictly ascending key order |
| Charts.SortSum | src/app/app/charts/page.tsx:101-102 | sorting keeps the sum of the scores |
| Charts.TakeLast | src/app/app/charts/page.tsx:103 | `slice(-12)` keeps the last min(12, length) elements, in order |
| Charts.ToPoints | src/app/app/charts/page.tsx:104-109 | each entry becomes a point with its key, its score and the percentage of the score |
| Charts.SeriesOf | src/app/app/charts/page.tsx:101-109 | a series has min(12, number of buckets) points |
| Charts.SeriesAscending | src/app/app/charts/page.tsx:101-103 | series keys are strictly ascending |
| Charts.SeriesFromEntries | src/app/app/charts/page.tsx:104-109 | every point is a bucket entry, with its percentage |
| Charts.SeriesKeepsNewest | src/app/app/charts/page.tsx:103 | every bucket left out is older than every bucket kept |
| Charts.SeriesSum | src/app/app/charts/page.tsx:101-109 | with 12 buckets or fewer, all of them are kept and the point scores add up to the entries' scores |
| Charts.BucketsPartitionTotal | src/app/app/charts/page.tsx:93-100 | summed over the distinct buckets, the bucket totals give the total of the daily scores: every day counts in exactly one bucket |
| Charts.GroupStep | src/app/app/charts/page.tsx:96-99 | one `set(key, (get(key)?.score ?? 0) + score)` keeps the bucket map equal to the sums over the days seen so far, with keys in insertion order |
| Charts.GroupByBucket | src/app/app/charts/page.tsx:92-100 | the bucket map holds each bucket of the days once, with the sum of its days' scores |
| Charts.GroupedDistinctKeys | src/app/app/charts/page.tsx:101 | the map's entries have distinct keys |
| Charts.GroupedEntryCount | src/app/app/charts/page.tsx:101 | the map has one entry per bucket |
| Charts.GroupedEntriesInBuckets | src/app/app/charts/page.tsx:101 | each entry of the map is a bucket with its total |
| Charts.GroupedBucketsInEntries | src/app/app/charts/page.tsx:101 | each bucket is an entry of the map, with its total |
| Charts.GroupedEntries | src/app/app/charts/page.tsx:101 | the map's entries are exactly the buckets with their totals, and they add up to the daily total |
| Charts.GroupedSeriesShape | src/app/app/charts/page.tsx:101-103 | a grouping's series has min(12, buckets) points in strictly ascending key order |
| Charts.GroupedSeriesPoints | src/app/app/charts/page.tsx:101-109 | each point of a grouping's series is a bucket with its total and that total's percentage |
| Charts.GroupedSeriesNewest | src/app/app/charts/page.tsx:103 | a bucket left out of a grouping's series is older than every bucket kept |
| Charts.GroupedSeriesSum | src/app/app/charts/page.tsx:101-109 | with 12 or fewer buckets a grouping's series scores add up to the day total |
| Charts.BucketSeries | src/app/app/charts/page.tsx:92-128 | a week or month series has min(12, buckets) points; keys are strictly ascending buckets; each score is its bucket's sum; each percent is measured against totalHabits * 7 or the fixed totalHabits * 30; dropped buckets are older than every kept one; with 12 or fewer buckets the scores add up to the daily total |
| Charts.KeyedSeries | src/app/app/charts/page.tsx:92-109 | the same facts for any bucketing function and any percentage capacity |
| Charts.ActiveDaysOfRows | src/app/app/charts/page.tsx:53-57 | a day has a positive score exactly when some row falls on it |
| Charts.TallyDays | src/app/app/charts/page.tsx:53-57 | the tally's days are exactly the days of the rows |
| Charts.DailyFigures | src/app/app/charts/page.tsx:53-90 | the per-day tally, the two counters and the 30-day series, stated in terms of the rows |
| Charts.RowSeries | src/app/app/charts/page.tsx:92-128 | a bucket series of the rows' tally, in terms of the rows: min(12, buckets of the row days) points with strictly ascending keys, each a bucket of the rows whose score is its number of rows and whose percent is measured against totalHabits * 7 or totalHabits * 30; dropped buckets are older than every kept one; with 12 or fewer buckets the scores add up to the number of rows |
| Charts.ChartsPage | src/app/app/charts/page.tsx:53-128 | for the whole page: the counters count row days of this week and month up to today; the day series scores each of the last 30 days by its rows, with its percentage of totalHabits; the week and month series have min(12, buckets) points with strictly ascending keys, each a bucket of the rows scored by its number of rows, with its percentage of totalHabits * 7 or totalHabits * 30; dropped buckets are older than every kept one; with 12 or fewer buckets the scores add up to the number of rows |
| Text.TrimStartShape | src/app/_actions/tracker.ts:88 | leading trimming drops only white space and stops at the first other character |
| Text.TrimEndShape | src/app/_actions/tracker.ts:88 | trailing trimming drops only white space and stops at the last other character |
| Text.TrimProperties | src/app/_actions/tracker.ts:88 | `trim()` gives a slice of the input with no white space at either end, and leaves such a string as it is |
| Text.TrimIdempotent | src/app/_actions/tracker.ts:147-148 | trimming twice is trimming once |
| Text.Lower | src/app/app/habits/habits-client.tsx:153 | `toLowerCase()` keeps the length and lowers each character |
| Text.LowerIdempotent | src/app/app/habits/habits-client.tsx:37 | lowered text has no capital left and lowering it again changes nothing |
| Text.NormalizeIdempotent | src/app/_actions/tracker.ts:144 | the key of a key is the key |
| Text.NameKeys | src/app/app/habits/habits-client.tsx:36-38 | `existingNames`: every habit's key is in the set, and nothing else is |
| Text.NormalizeExample | src/app/_actions/tracker.ts:144 | `" A\n"` has the key `"a"` |
| Text.InnerSpaceExample | src/app/_actions/tracker.ts:144 | inner blanks are part of the key |
| TrackerActions.ParsePassPercentage | src/app/_actions/tracker.ts:55-61 | a value is accepted exactly when it is an integer from 0 to 100, and then it is that integer |
| TrackerActions.ParseHabitName | src/app/_actions/tracker.ts:87-93 | a name is accepted exactly when it is present and its trimmed form has 1 to 80 characters; the result is the trimmed form |
| TrackerActions.ParseSelection | src/app/_actions/tracker.ts:118-122 | a selection is refused exactly when some entry's trimmed form is empty or longer than 80; otherwise every entry is trimmed |
| TrackerActions.TrimAll | src/app/_actions/tracker.ts:148 | every name trimmed, in order |
| TrackerActions.KeepNew | src/app/_actions/tracker.ts:149 | a name is kept exactly when it was listed and its lowercase form is not an existing key |
| TrackerActions.KeepNewCounts | src/app/_actions/tracker.ts:149 | each new name is kept as often as it is listed, and a name with an existing key not at all |
| TrackerActions.KeepNewAppend | src/app/_actions/tracker.ts:149 | filtering a concatenation filters each part, so the kept names keep their order |
| TrackerActions.NamesToInsert | src/app/_actions/tracker.ts:147-150 | the trimmed names of the selection whose keys the user does not have; its facts are `TrackerActions.InsertedNames` and `TrackerActions.SelectionDuplicatesKept` |
| TrackerActions.InsertedNames | src/app/_actions/tracker.ts:143-150 | every inserted name comes from the selection, fits 80 characters, and has a key the user does not have yet; every selected name is inserted or already present |
| TrackerActions.SelectionDuplicatesKept | src/app/_actions/tracker.ts:147-150 | duplicates inside one selection are both inserted |
| TrackerActions.ActiveNamesMembers | src/app/_actions/tracker.ts:133-137 | the names read are those of the user's habits that are not archived |
| TrackerActions.ActiveNamesAppend | src/app/_actions/tracker.ts:156 | inserting rows appends their active names |
| TrackerActions.NewRows | src/app/_actions/tracker.ts:150 | one active habit row of the user per name, in order |
| TrackerActions.ApplyCoversSelection | src/app/_actions/tracker.ts:143-162 | after a successful apply, every selected name's key is among the user's active habits |
| TrackerActions.SettingsStore.SetPassPercentage | src/app/_actions/tracker.ts:51-81 | a refused value, a missing user or a database error leaves the settings as they were; otherwise the user's pass percentage becomes the value; stored values stay in 0..100 |
| TrackerActions.HabitStore.CreateHabit | src/app/_actions/tracker.ts:83-113 | a refused name, a missing user or a database error leaves the habits as they were; otherwise one active habit with the trimmed name is added |
| TrackerActions.HabitStore.ApplyTemplate | src/app/_actions/tracker.ts:115-163 | a refused selection, a missing user or a read error changes nothing; with nothing new to insert the result is ok with no insert; an insert error changes nothing; otherwise the new names are added as active habits |
| TrackerActions.Updated | src/app/_actions/tracker.ts:191-214 | after a delete the triple is absent, after an upsert it is present once, and every other triple is unchanged |
| TrackerActions.UpdatedLastWins | src/app/_actions/tracker.ts:206-214 | saving a triple again gives the same store, and of two saves of one triple the later wins |
| TrackerActions.UpdatedCommute | src/app/_actions/tracker.ts:191-214 | saves of different triples can happen in either order |
| TrackerActions.CompletedOn | src/app/app/page.tsx:63-68 | the habits loaded as completed for a day are exactly those whose triple is stored |
| TrackerActions.CompletedOnUpdated | src/app/_actions/tracker.ts:191-214 | a save changes a day's completed habits by exactly the saved habit |
| TrackerActions.CompletionStore.SetHabitCompletion | src/app/_actions/tracker.ts:165-221 | a non-uuid habit id or a badly shaped day, a missing user or a database error leaves the store as it was; otherwise the triple is deleted or upserted |
| TrackerClient.IsChecked | src/app/app/tracker-client.tsx:48 | `overrides[h.id] ?? baseCompleted.has(h.id)`; its fact is `TrackerClient.CheckedIff` |
| TrackerClient.CheckedIff | src/app/app/tracker-client.tsx:48 | a habit is checked exactly when its override is true, or it has no override and was completed at load |
| TrackerClient.Score | src/app/app/tracker-client.tsx:46-50 | the score is at most the number of habits |
| TrackerClient.ScoreFullIff | src/app/app/tracker-client.tsx:46-50 | the score equals the number of habits exactly when every habit is checked |
| TrackerClient.ScoreEmptyIff | src/app/app/tracker-client.tsx:46-50 | the score is 0 exactly when no habit is checked |
| TrackerClient.ScoreOfSameChecks | src/app/app/tracker-client.tsx:47-50 | the score depends only on which habits are checked |
| TrackerClient.Summarize | src/app/app/tracker-client.tsx:46-52 | the score, total, percent and pass mark of the day; its facts are `TrackerClient.SummarizeFacts` and the Score lemmas |
| TrackerClient.SummarizeFacts | src/app/app/tracker-client.tsx:46-52 | percent is in 0..100, and 0 without habits; pass holds exactly when percent reaches the target; below 200 habits, 100 percent means every habit is checked |
| TrackerClient.Toggled | src/app/app/tracker-client.tsx:74 | the toggled habit's override becomes the new value, and every other override is unchanged |
| TrackerClient.ToggleChecks | src/app/app/tracker-client.tsx:74 | after a toggle the habit shows the new value, and no other habit changes |
| TrackerClient.Reverted | src/app/app/tracker-client.tsx:85-89 | the failure branch removes exactly that habit's override and keeps the others |
| TrackerClient.RevertFallsBack | src/app/app/tracker-client.tsx:85-89 | after the failure branch the habit shows its state at load, and no other habit changes |
| TrackerClient.RevertUndoesToggleIff | src/app/app/tracker-client.tsx:74-89 | deleting the override undoes a toggle exactly when the habit had no override before it |
| TrackerClient.PriorOverride | src/app/app/tracker-client.tsx:74 | the override present before a toggle, if any |
| TrackerClient.RestoredUndoesToggle | src/app/app/tracker-client.tsx:74-89 | putting back the earlier override undoes a toggle completely |
| TrackerClient.LoadedShowsStore | src/app/app/page.tsx:63-80 | a freshly loaded tracker shows exactly the stored completions |
| TrackerClient.SavedToggleShowsStore | src/app/app/tracker-client.tsx:71-81 | a saved toggle keeps the tracker in agreement with the store |
| TrackerClient.RestoredShowsStore | src/app/app/tracker-client.tsx:83-89 | with the corrected failure branch, a refused save keeps the tracker in agreement with the store |
| TrackerClient.RevertLosesSavedToggle | src/app/app/tracker-client.tsx:83-89 | as written, checking and saving a habit, then unchecking it with a failed save, shows it unchecked while the store holds it |
| TrackerClient.Tracker.Toggle | src/app/app/tracker-client.tsx:71-92 | `toggle` as written: on success the new override is kept and the error cleared; on failure the message is shown and the habit's override deleted |
| TrackerClient.Tracker.ToggleRestoring | src/app/app/tracker-client.tsx:71-92 | `toggle` with the corrected failure branch: a failed save leaves the overrides as they were before the toggle |
| TrackerClient.ShiftDay | src/app/app/tracker-client.tsx:62-63 | `format(addDays(parseISO(day), k), "yyyy-MM-dd")`; its facts are `TrackerClient.ShiftDayOf` and `TrackerClient.InvalidDayHasNoNeighbours` |
| TrackerClient.PrevDay | src/app/app/tracker-client.tsx:62 | the shift by -1; its facts are `TrackerClient.PrevDayIsPredecessor` and `TrackerClient.NextThenPrev` |
| TrackerClient.NextDay | src/app/app/tracker-client.tsx:63 | the shift by 1; its facts are `TrackerClient.NextDayIsSuccessor` and `TrackerClient.NextThenPrev` |
| TrackerClient.ShiftDayOf | src/app/app/tracker-client.tsx:62-63 | for a day that parses, shifting it by k days gives the stamp of the shifted day when its year is from 1 to 9999, and nothing otherwise |
| TrackerClient.NextDayIsSuccessor | src/app/app/tracker-client.tsx:63 | `nextDay` is the stamp of the calendar successor, across month and year ends |
| TrackerClient.PrevDayIsPredecessor | src/app/app/tracker-client.tsx:62 | `prevDay` is the stamp of the day whose successor is this one |
| TrackerClient.NextThenPrev | src/app/app/tracker-client.tsx:62-63 | going forward, then back, returns to the same stamp |
| TrackerClient.InvalidDayHasNoNeighbours | src/app/app/tracker-client.tsx:62-63 | a well-shaped stamp that is not a date has no neighbours |
| HabitsClient.ToggleSelection | src/app/app/habits/habits-client.tsx:40-47 | the name's membership flips, and no other name changes |
| HabitsClient.ToggleTwice | src/app/app/habits/habits-client.tsx:40-47 | toggling twice gives back the selection |
| HabitsClient.TogglesCommute | src/app/app/habits/habits-client.tsx:40-47 | toggles of two names can happen in either order |
| HabitsClient.SelectAll | src/app/app/habits/habits-client.tsx:49-51 | the selection becomes exactly the set of templates |
| HabitsClient.AlreadyAdded | src/app/app/habits/habits-client.tsx:153 | `existingNames.has(name.toLowerCase())`; its facts are `HabitsClient.AddedMarkMatchesServer` and `HabitsClient.AddedMarkIgnoresBlanks` |
| HabitsClient.AddedMarkMatchesServer | src/app/app/habits/habits-client.tsx:153 | for a template without surrounding blanks, the "Added" mark is shown exactly when the server would skip that template |
| HabitsClient.AddedMarkIgnoresBlanks | src/app/app/habits/habits-client.tsx:153 | the template is lowered but not trimmed, so `" Read"` is not marked although the server skips it |
| HabitsClient.CheckboxDisabled | src/app/app/habits/habits-client.tsx:163 | disabled while the apply is pending or once the template is already added; its fact is `HabitsClient.CheckboxBlocksSkipped` |
| HabitsClient.CheckboxBlocksSkipped | src/app/app/habits/habits-client.tsx:163 | a template's checkbox is disabled while applying; otherwise, for a template without surrounding blanks, exactly when the server would skip it |
| HabitsClient.AddDisabled | src/app/app/habits/habits-client.tsx:181 | disabled while the apply is pending or when nothing is selected; its facts are `HabitsClient.AddDisabledAfterApply` and `HabitsClient.SelectingEnablesAdd` |
| HabitsClient.AfterApply | src/app/app/habits/habits-client.tsx:53-65 | success clears the selection and the error; failure keeps the selection and shows the message |
| HabitsClient.AddDisabledAfterApply | src/app/app/habits/habits-client.tsx:180 | after a successful apply, the add button is disabled |
| HabitsClient.SelectingEnablesAdd | src/app/app/habits/habits-client.tsx:181 | selecting a template enables the add button when nothing is pending |
| Middleware.IsAppRoute | src/middleware.ts:19 | `/app` or a path under `/app/`; its facts are `Middleware.RouteExamples` and `Middleware.RouteClassesDisjoint` |
| Middleware.IsAuthRoute | src/middleware.ts:20 | `/login` or `/register`; its facts are `Middleware.RouteExamples` and `Middleware.RouteClassesDisjoint` |
| Middleware.RouteClassesDisjoint | src/middleware.ts:19-20 | no path is both an app route and an auth route |
| Middleware.RouteExamples | src/middleware.ts:19-20 | `/app`, `/app/` and `/app/habits` are app routes; `/apple`, `/ap` and `/App` are not; `/login` is an auth route and `/login/` is not |
| Middleware.WithoutName | src/middleware.ts:25 | a pair is kept exactly when its name is another one |
| Middleware.WithoutNameCounts | src/middleware.ts:25 | each pair with another name is kept as often as it occurs, and the pairs with the name not at all |
| Middleware.WithoutNameAppend | src/middleware.ts:25 | removing a name from a concatenation removes it from each part, so the kept pairs keep their order |
| Middleware.SetParam | src/middleware.ts:25 | `searchParams.set`: the first pair with the name gets the value and the later ones go, or the pair is appended; its fact is `Middleware.SetParamFacts` |
| Middleware.SetParamFacts | src/middleware.ts:25 | after `searchParams.set`, reading the name gives the value, the name occurs once, and the other pairs are unchanged and in order |
| Middleware.Decide | src/middleware.ts:22-36 | a redirect happens exactly for a signed-out app route or a signed-in auth route; a redirect keeps the origin and the hash |
| Middleware.SignedOutGoesToLogin | src/middleware.ts:22-27 | a signed-out app request goes to `/login`, with `next` set to the requested path and the other query pairs kept |
| Middleware.SignedInGoesToApp | src/middleware.ts:29-34 | a signed-in auth request goes to `/app` with an empty query |
| Middleware.LoginRedirectSettles | src/middleware.ts:22-27 | the login page a signed-out visitor is sent to is not redirected again |
| Middleware.AppRedirectSettles | src/middleware.ts:29-34 | the app page a signed-in visitor is sent to is not redirected again |
| Middleware.WithCookies | src/middleware.ts:5-10 | every cookie of the source is set on the target under its name; the target's other cookies are untouched |
| Middleware.Guard | src/middleware.ts:12-37 | a passing request gets the session response itself; a redirect is a new response with exactly the session's cookies |

## Left out

- Supabase clients, authentication calls, session refresh and the OAuth callback are network I/O. The signed-in user, the session response and every database error are parameters.
- React rendering, hooks, transitions, `router.push`/`replace`, `window.location.reload` and the charts component are left out. The interleaving of overlapping optimistic toggles is concurrency and is not modelled: each toggle is taken to complete before the next.
- Labels and display formats (`"d MMM"`, `"MMM yyyy"`, `"EEE, d MMM yyyy"`) are left out. Points carry only the key, the score and the percentage.
- Floating-point effects of `Math.round((score / total) * 100)` are not modelled: the percentage is exact rational rounding, halves up.
- Time zones and the clock are not modelled. Today is a day-number parameter, and Date comparisons within a day (`d <= today`) are comparisons of day numbers.
- The 120-day lookback of the charts query is not modelled: the charts accept any list of row days.
- Settings rows created on first visit (`ensureUserSettings`, the insert on the tracker page) are storage plumbing and are not modelled. Neither are the habits' `sort_order` and `created_at` columns.
- The uuid validator is a parameter. The coercion `Number(...)` of the pass-percentage field is a parameter too, given as its result. Note that `Number("")` and `Number(null)` are 0, which is then accepted.
- `HABIT_TEMPLATES` and `DEFAULT_PASS_PERCENTAGE` come from a module that is not part of this model. The template list is a parameter.
- `Text.Lower` lowers ASCII letters only. Other letters keep their case.
- Lengths are counted in Unicode scalar values rather than UTF-16 code units, so names with characters outside the Basic Multilingual Plane measure shorter than the 80-character limit of the source.
- Day-stamps are modelled for years 1 to 9999. `DayStamps.ParseDayStamp` refuses year 0000, which `parseISO` accepts. `prevDay`/`nextDay` give nothing when the shifted day's year is outside 1 to 9999, where the date library formats a five-digit year or an era year (year 0 is written `0001`). They also give nothing for a stamp that is not a date, where `format` throws on the Invalid Date.
- `localeCompare` on the ISO keys is modelled as character order. The keys use only digits and hyphens and all have the same length.
- The Next.js `matcher` configuration is framework configuration and is not modelled.
- `Middleware.WithCookies` visits the source cookies in an unspecified order. Names are distinct, so the order does not matter for the resulting cookie map. Cookie attributes are kept as an opaque list.
- `Charts.ChartsPage` states the calendar shape of bucket keys only through `Charts.BucketKeyShape`, which applies to every key in `Buckets`.
- `TrackerClient.SummarizeFacts` states "100 percent exactly when every habit is checked" only below 200 habits. From 200 habits on, rounding already shows 100 with one habit unchecked (`Percentages.PercentRoundsUpToFull`).

## Findings

| source | as written | input that shows it | evidently intended | confidence | as-written member | corrected member |
|---|---|---|---|---|---|---|
| src/app/app/tracker-client.tsx:83-89 | a failed save deletes the habit's override, so the habit falls back to the state loaded with the page | a habit not completed at load is checked (saved), then unchecked and that save fails: the store still holds the completion, but the tracker shows the habit unchecked | a failed save puts back the override the habit had before the toggle, so the tracker keeps showing what is stored | medium, not executed | TrackerClient.RevertLosesSavedToggle | TrackerClient.RestoredShowsStore |
