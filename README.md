# Focus timer core in Dafny

A verified model of the logic inside the "80 horas" focus timer, a browser
app that times work sessions and charts them. It covers four parts:

- **Time bucketing** (`DateUtils`). These functions turn the session list into:
  - weekly progress against an hour goal;
  - seven Monday-to-Sunday day totals;
  - 24 hour-of-day buckets, where a session that crosses an hour is split;
  - a 7×24 day-by-hour heat map;
  - two duration formatters.
- **The stopwatch** (`FocusTimer.Timer`). This covers start/resume, pause, the one-second tick, stop-and-save with its five-second minimum, and reset. It also includes the Space, R, F and Escape key handlers.
- **The legacy browser store** (`Storage.LocalStore`). Two localStorage keys hold the session list and the settings record. The store supports append, delete by id, settings that write their defaults on first read, clear, export and import.
- **Display rules**:
  - the "HH:MM" + "SS" clock face (`TimerDisplay`);
  - the history table's date search, newest-first sort and empty-table message (`SessionsTable`);
  - the heat map's intensity scale, five colour tiers and tooltip (`HeatMap`).

Timestamps are whole seconds counted from a Monday 00:00 local epoch, with no
daylight-saving shifts. The clock fields are
`hour = (t / 3600) % 24`, `minute = (t / 60) % 60`, `second = t % 60` and
`dayOfWeek = (t / 86400) % 7`. `dayOfWeek` is 0 for Monday, matching
`(getDay() + 6) % 7`. The current time is a parameter `now`. The week runs
from Monday 00:00:00 to Sunday 23:59:59, both ends included. All aggregates
are in seconds: the final `/ 60` and `/ 3600` and the rounding are not
modelled.

The daily bars follow the code. Each day's window is
`[dayStart, dayStart + 1 day]`, closed at both ends. The weekly total covers
each second of the week once, which suggests the days were meant to be
half-open. The Findings section records what follows from the closed window.

Files: `wrappers.dfy` (Option), `types.dfy` (Session, Settings),
`seqs.dfy` (order-keeping filter), `decimal.dfy` (decimal text, padding),
`date_utils.dfy`, `timer.dfy`, `storage.dfy`, `timer_display.dfy`,
`sessions_table.dfy`, `heat_map.dfy`.

## Model

| member | source | states |
|---|---|---|
| DateUtils.HourOf | src/utils/dateUtils.ts:68-69 | the hour of a timestamp is in 0..23 |
| DateUtils.MinuteOf | src/utils/dateUtils.ts:76-79 | getMinutes: the minute of a timestamp is in 0..59 (DateUtils.ClockFields ties it to the timestamp) |
| DateUtils.SecondOf | src/utils/dateUtils.ts:76-79 | getSeconds: the second of a timestamp is in 0..59 (DateUtils.ClockFields ties it to the timestamp) |
| DateUtils.DayOfWeek | src/utils/dateUtils.ts:108 | the Monday-based day index is in 0..6 |
| DateUtils.ClockFields | src/utils/dateUtils.ts:76-79 | minutes and seconds recompose the position within the hour, and hours, minutes and seconds recompose the position within the day |
| DateUtils.WeekStart | src/utils/dateUtils.ts:6-8 | the week start is at or before now and less than a week earlier; it is a multiple of the week length and falls on Monday at 00:00:00 |
| DateUtils.WeekEnd | src/utils/dateUtils.ts:10-12 | the week end is at or after now; it is one second before the next Monday and falls on Sunday at 23:59:59 |
| DateUtils.StartingWithin | src/utils/dateUtils.ts:18-20 | a session is kept iff it is in the list and its start lies in the closed window |
| DateUtils.TotalDurationAppend | src/utils/dateUtils.ts:22 | the duration sum of two lists joined is the sum of their sums |
| DateUtils.TotalDurationFromFront | src/utils/dateUtils.ts:22 | the `reduce` sum (DateUtils.TotalDuration) read from the front: the first duration plus the sum of the rest, so summing from the back gives what `reduce` gives |
| DateUtils.TotalDurationNonNegative | src/utils/dateUtils.ts:22 | sessions with non-negative durations have a non-negative total |
| DateUtils.GetWeeklyProgress | src/utils/dateUtils.ts:14-34 | the total is the duration sum of exactly the sessions starting in the current week; percentage ≤ 100 and remaining ≥ 0 for every goal it accepts; a zero goal with time this week gives exactly 100 and 0; for a positive goal: once it is reached they are exactly 100 and 0, below it they are hours/goal·100 and goal − hours, and a non-negative total gives a non-negative percentage; for a negative goal and a non-negative total the percentage is hours/goal·100 ≤ 0 and remaining is 0 |
| DateUtils.GetDailyStats | src/utils/dateUtils.ts:36-57 | seven entries; entry i starts i days after the week start, on weekday i at hour 0; its seconds are the sum over the sessions starting in the closed day window |
| DateUtils.DayStartFields | src/utils/dateUtils.ts:38-40 | each day start of the week falls on the expected weekday at midnight |
| DateUtils.DailyStatsEmpty | src/utils/dateUtils.ts:43-47 | with no sessions every day is zero |
| DateUtils.DailyStatsMidnightCountedTwice | src/utils/dateUtils.ts:40-45 | a session starting exactly at the midnight between day i and day i+1 is counted in full on both days |
| DateUtils.MidnightSessionCountedOnceInWeek | src/utils/dateUtils.ts:15-22 | the same session is counted once in the weekly total |
| DateUtils.SundayIncludesNextMonday | src/utils/dateUtils.ts:40-45 | a session starting exactly at the next Monday 00:00:00 is counted in full on Sunday's bar, while the weekly total, which ends at Sunday 23:59:59, gives it 0 |
| DateUtils.GetDailyStatsHalfOpen | src/utils/dateUtils.ts:36-57 | corrected days: seven entries, with each day's seconds taken over [dayStart, dayStart + 1 day) |
| DateUtils.HalfOpenDaysPartitionWeek | src/utils/dateUtils.ts:14-57 | with half-open days the seven day totals add up to the weekly total |
| DateUtils.SplitWindow | src/utils/dateUtils.ts:43-47 | splitting a window at any point splits the time counted in it |
| DateUtils.WindowTotalFiltered | src/utils/dateUtils.ts:43-47 | filtering then summing equals summing the matching durations in place |
| DateUtils.FirstHourSeconds | src/utils/dateUtils.ts:76-83 | the first-hour share `(60-m-1)*60+(60-s)` lies in 1..3600 and equals 3600 − 60m − s, the time left in the start hour |
| DateUtils.LastHourSeconds | src/utils/dateUtils.ts:78-79 | the last-hour share lies in 0..3599 and is the time elapsed in the end hour |
| DateUtils.GetHourlyStats | src/utils/dateUtils.ts:59-102 | 24 entries; entry h has hour h and the seconds credited to bucket h by every session in turn (first, middle and last parts for sessions that cross an hour) |
| DateUtils.SameHourCredit | src/utils/dateUtils.ts:71-73 | a session starting and ending in the same clock hour adds its whole duration to that bucket and leaves the other 23 unchanged |
| DateUtils.HourShare | src/utils/dateUtils.ts:71-95 | the credit one session gives hour h: 0 outside 0..23, and between 0 and 3600 seconds for a session whose start and end hours differ |
| DateUtils.SpanningShares | src/utils/dateUtils.ts:75-95 | for a session crossing hours: the start bucket gets the rest of the start hour; each hour strictly between gets 3600; the end bucket gets the elapsed part of the end hour; every other bucket gets 0, so a wrap past midnight touches no middle bucket |
| DateUtils.SharesUpToClosedForm | src/utils/dateUtils.ts:67-95 | the first n buckets of one session sum to the first part, 3600 per middle hour below n and the last part |
| DateUtils.SpanningSessionTotal | src/utils/dateUtils.ts:75-95 | when the start hour is before the end hour, the 24 buckets add up to the difference between the two times of day |
| DateUtils.WrappingSessionTotal | src/utils/dateUtils.ts:75-95 | when the end hour is before the start hour, only the first and last parts are credited |
| DateUtils.WithinOneDayShares | src/utils/dateUtils.ts:67-95 | a session inside one calendar day whose duration is its length is split over the buckets with no loss and no excess |
| DateUtils.HourlyStatsConserveTime | src/utils/dateUtils.ts:59-102 | for such sessions the 24 buckets returned add up to the total duration |
| DateUtils.HeatCellCredit | src/utils/dateUtils.ts:107-117 | one more session adds its whole duration to its start (day, hour) cell and nothing to any other cell |
| DateUtils.CellTotal | src/utils/dateUtils.ts:107-117 | a cell outside 7 × 24 holds 0; with non-negative durations a cell holds between 0 and the total duration |
| DateUtils.GetHeatMapData | src/utils/dateUtils.ts:104-132 | 168 entries in day-major order: entry i has day i/24 and hour i%24, and holds the durations of the sessions starting in that cell |
| DateUtils.CellIndexMatches | src/utils/dateUtils.ts:108-128 | a session's cell index 24·day + hour is below 168, and the session lies in cell (i / 24, i % 24) iff i is that index |
| DateUtils.HeatMapConservesTime | src/utils/dateUtils.ts:104-132 | the 168 cells add up to the total duration of all sessions |
| DateUtils.SplitDuration | src/utils/dateUtils.ts:135-137 | minutes and seconds are below 60 and 3600·h + 60·m + s is the input |
| DateUtils.SplitDurationUnique | src/utils/dateUtils.ts:135-137 | that split is the only one with minutes and seconds below 60 |
| DateUtils.FormatDurationDetailed | src/utils/dateUtils.ts:148-154 | the text is "Hh Mm Ss" for some h, m < 60 and s < 60 with 3600h + 60m + s equal to the input |
| DateUtils.FormatDurationDetailedInjective | src/utils/dateUtils.ts:148-154 | different durations give different detailed texts |
| DateUtils.ShowHmsInjective | src/utils/dateUtils.ts:153 | the "Hh Mm Ss" text determines h, m and s |
| DateUtils.ShowMsInjective | src/utils/dateUtils.ts:142 | the "Mm Ss" text determines m and s |
| DateUtils.FormatDuration | src/utils/dateUtils.ts:134-146 | from one hour on the text is the detailed text; from one minute it is the detailed text without its leading "0h "; below a minute it is the detailed text without "0h 0m " |
| Decimal.NatToString | src/components/TimerDisplay.tsx:13-14 | decimal text: non-empty digits, no leading zero, one digit iff below 10, at most two iff below 100 |
| Decimal.ParseNatToString | src/components/TimerDisplay.tsx:13-14 | reading the decimal text back gives the number |
| Decimal.NatToStringInjective | src/utils/dateUtils.ts:140-153 | different numbers have different decimal texts |
| Decimal.PadStart | src/components/TimerDisplay.tsx:13-14 | the result has length max(|s|, width), ends with s, and is filled with the pad character in front |
| Decimal.ParseLeadingZeros | src/components/TimerDisplay.tsx:13-14 | leading zeros do not change the value read |
| Decimal.TwoDigits | src/components/TimerDisplay.tsx:13-14 | `padStart(2, '0')` of a number is at least two digits and reads back to it; below 100 it is exactly two; from 10 on it is the plain decimal text |
| Decimal.DigitRunSplit | src/utils/dateUtils.ts:140-153 | a digit run followed by a non-digit splits uniquely |
| TimerDisplay.Render | src/components/TimerDisplay.tsx:9-14 | the seconds text is two digits below 60; the time text is hours, ':' and two minute digits below 60; 3600·hours + 60·minutes + seconds read back is the elapsed time; the hour digits are TwoDigits of seconds / 3600, so the text is exactly 5 characters below 100 hours and from 10 hours on the hours are printed in full; the layout flag is passed through |
| TimerDisplay.Clock | src/components/TimerDisplay.tsx:13 | the 'HH:MM' line is a clock text whose parts read back to the hours and minutes; its hour digits are TwoDigits of the hours, and it has 5 characters below 100 hours |
| TimerDisplay.JoinClockText | src/components/TimerDisplay.tsx:13 | joining an hour text and a two-digit minute text with ':' gives a clock text whose hour part is that hour text and whose minute part reads back to the minutes |
| TimerDisplay.LongSessionsKeepAllHourDigits | src/components/TimerDisplay.tsx:13 | from 100 hours on, the hour part is the full decimal number of hours (three or more digits, nothing truncated) |
| TimerDisplay.RenderIgnoresFullscreen | src/components/TimerDisplay.tsx:16-38 | both layouts show the same time text and the same seconds text; only the styling differs |
| SessionsTable.Contains | src/components/SessionsTable.tsx:31 | `includes` holds iff the needle occurs at some position |
| SessionsTable.Matches | src/components/SessionsTable.tsx:28-32 | a session is kept iff the query is empty or occurs somewhere in the session's date text |
| SessionsTable.InsertNewestFirst | src/components/SessionsTable.tsx:33 | inserting into a newest-first list keeps it newest-first and adds exactly that element |
| SessionsTable.SortNewestFirst | src/components/SessionsTable.tsx:33 | the result is ordered by non-increasing start time and is a permutation of the input |
| SessionsTable.InsertKeepsTies | src/components/SessionsTable.tsx:33 | inserting a session puts it after every session already there with the same start time, and keeps their order |
| SessionsTable.SortKeepsTies | src/components/SessionsTable.tsx:33 | the sort is stable, as Array.prototype.sort is required to be: for every start time, the sessions with that start time come out in their input order |
| SessionsTable.FilteredSessions | src/components/SessionsTable.tsx:26-34 | the table is newest-first and is a permutation of the matching sessions |
| SessionsTable.EmptyQueryKeepsAll | src/components/SessionsTable.tsx:29 | with an empty query every session is listed, as often as stored |
| SessionsTable.QuerySelects | src/components/SessionsTable.tsx:28-32 | with a query a session is listed iff it is stored and its date text contains the query |
| SessionsTable.EmptyNotice | src/components/SessionsTable.tsx:112-116 | a notice appears iff the table is empty; it is "No se encontraron sesiones." iff the query is non-empty and "No hay sesiones registradas." iff it is empty |
| HeatMap.MaxMinutes | src/components/HeatMap.tsx:38 | the scale is at least 1 and at least every cell; it is 1 or the value of some cell |
| HeatMap.Intensity | src/components/HeatMap.tsx:41-44 | 0 for an empty cell; in (0, 1] for a positive cell; a cell within the scale gets exactly its share of the scale |
| HeatMap.ColorOf | src/components/HeatMap.tsx:46-52 | gray iff the intensity is 0; blue-900 iff it is non-zero and below 0.25; blue-700 iff it is in [0.25, 0.5); blue-500 iff it is in [0.5, 0.75); the top tier iff it is at least 0.75 |
| HeatMap.ClassName | src/components/HeatMap.tsx:47-51 | each tier's class is an 11-character `bg-` class, and it is a blue iff the tier is not the empty one |
| HeatMap.ColorMonotone | src/components/HeatMap.tsx:46-52 | over non-negative intensities a larger one never gets a lower tier |
| HeatMap.CellColors | src/components/HeatMap.tsx:38-52 | a cell with time is never gray; the largest cell gets `bg-blue-400` |
| HeatMap.CellClassNames | src/components/HeatMap.tsx:38-52 | the class drawn for a cell with time is never `bg-gray-800`, and the largest cell is drawn `bg-blue-400` |
| HeatMap.Tooltip | src/components/HeatMap.tsx:81-87 | below a minute the text is "Ns"; otherwise it is "Mm Ss" with m ≥ 1, s < 60 and 60m + s equal to the input |
| Seqs.Filter | src/utils/storage.ts:34 | keeps exactly the elements satisfying the predicate, in order, never more than the input |
| Seqs.FilterAppend | src/utils/storage.ts:34 | filtering a concatenation filters each part, so order is kept |
| Storage.SessionsOf | src/utils/storage.ts:7-21 | an absent key or undecodable text read as []; otherwise the stored list |
| Storage.SettingsOf | src/utils/storage.ts:38-58 | an absent key or undecodable text read as the defaults {80, true}; otherwise the stored record |
| Storage.WithoutId | src/utils/storage.ts:33-36 | a session survives iff it was stored and has another id |
| Storage.WithoutIdKeepsOrder | src/utils/storage.ts:34 | deleting from a concatenation deletes from each part, so survivors keep their order |
| Storage.WithoutAbsentId | src/utils/storage.ts:33-36 | deleting an id that no session has leaves the list unchanged |
| Storage.LocalStore.constructor | src/utils/storage.ts:3-4 | a fresh profile has neither key |
| Storage.LocalStore.GetSessions | src/utils/storage.ts:7-21 | [] when the key is absent or its text is undecodable, the stored list otherwise; nothing changes |
| Storage.LocalStore.SaveSessions | src/utils/storage.ts:23-25 | the sessions key holds the list and the settings key is untouched |
| Storage.LocalStore.AddSession | src/utils/storage.ts:27-31 | the stored list becomes the old list with the session appended at the end; settings untouched |
| Storage.LocalStore.DeleteSession | src/utils/storage.ts:33-36 | the stored list becomes the old list without that id; settings untouched |
| Storage.LocalStore.GetSettings | src/utils/storage.ts:38-58 | returns the stored record or the defaults; with no key or undecodable text it writes the defaults; sessions untouched |
| Storage.LocalStore.SaveSettings | src/utils/storage.ts:60-62 | the settings key holds the record and the sessions key is untouched |
| Storage.LocalStore.ClearAllData | src/utils/storage.ts:64-67 | both keys are removed, so the list reads [] and the settings read as the defaults |
| Storage.LocalStore.ExportToJSON | src/utils/storage.ts:83-92 | the backup holds the current list and settings; the readable state is unchanged; as a side effect of reading the settings, a missing or malformed settings key is overwritten with the defaults, and a well-formed one is left as it is |
| Storage.LocalStore.ImportFromJSON | src/utils/storage.ts:94-115 | true iff the text parses to a JSON value other than null. That includes numbers, strings and arrays, which have neither field. The list is replaced, not appended, iff the value's `sessions` field is an array. The settings are replaced iff its `settings` field is truthy, so a missing, null, 0 or false `settings` is skipped. Otherwise each key keeps its old content, so an unparseable or null text writes nothing |
| Storage.SettingsDefaultsPersist | src/utils/storage.ts:38-48 | on a fresh key the first read returns and stores {80, true}, and a second read returns the same |
| Storage.SaveThenGetSettings | src/utils/storage.ts:38-62 | after saving x, reading the settings returns x |
| Storage.ClearThenRead | src/utils/storage.ts:64-67 | after clearing, the list is [] and the settings are the defaults |
| Storage.ExportImportRoundTrip | src/utils/storage.ts:83-115 | importing an exported backup succeeds and reproduces the sessions and the settings, into the same store or into another |
| Storage.SameStoreRoundTrip | src/utils/storage.ts:83-115 | `importFromJSON(exportToJSON())` on the app's one store succeeds and leaves the sessions and the settings it reads unchanged |
| FocusTimer.Timer.constructor | src/hooks/useTimer.ts:8-15 | every cell starts empty (0, not running, not paused, no start, no message) and exit-on-pause defaults to true; the invariant holds |
| FocusTimer.Timer.LoadSettings | src/hooks/useTimer.ts:17-23 | only the exit-on-pause setting changes |
| FocusTimer.Timer.Start | src/hooks/useTimer.ts:37-47 | from stopped: 0 seconds, running, unpaused, started now, enter fullscreen; from paused: only the paused flag clears; while counting: nothing changes; the invariant is kept |
| FocusTimer.Timer.Pause | src/hooks/useTimer.ts:49-56 | only a counting timer becomes paused, and it leaves fullscreen iff the setting says so; otherwise nothing changes |
| FocusTimer.Timer.Tick | src/hooks/useTimer.ts:25-35 | seconds grow by exactly one, and only while running and not paused |
| FocusTimer.Timer.StopAndSave | src/hooks/useTimer.ts:58-111 | a session (stored start, end now, duration the counted seconds, source web) is submitted iff running, started and at least 5 seconds; the outcome sets the success message with the detailed duration or the error message; a running session under 5 seconds sets the too-short message; a stopped timer keeps its message; the timer always ends stopped at 0 with no start time |
| FocusTimer.SavedMessage | src/hooks/useTimer.ts:72-73 | the success text starts with the fixed prefix, has a duration after it, and is never either failure text |
| FocusTimer.SavedMessageInjective | src/hooks/useTimer.ts:72-73 | different saved durations give different success texts |
| FocusTimer.Timer.Reset | src/hooks/useTimer.ts:113-118 | while paused: 0 seconds and started now, flags unchanged; otherwise nothing changes |
| FocusTimer.Timer.OnSpace | src/pages/Timer.tsx:25-33 | stopped → start, paused → resume, counting → pause, with the states those give |
| FocusTimer.Timer.OnR | src/pages/Timer.tsx:37-41 | resets only while paused; otherwise the timer is untouched |
| FocusTimer.Timer.OnF | src/pages/Timer.tsx:34-36 | requests a fullscreen toggle and changes no timer field |
| FocusTimer.Timer.OnEscape | src/pages/Timer.tsx:42-44 | requests leaving fullscreen and changes no timer field |
| FocusTimer.SpaceTwice | src/pages/Timer.tsx:25-33 | two Space presses while counting give back the same state, seconds and start time included |
| FocusTimer.ShortSessionIsDiscarded | src/hooks/useTimer.ts:96-104 | start, four ticks and stop submit nothing and show the too-short message with status error |

## Left out

- DateUtils.GetWeeklyProgress: a zero goal is reachable, because emptying the goal field saves 0. With some time this week the code's ratio is +Infinity, clamped to 100 % with 0 hours remaining, and the model gives exactly that. A zero goal with no time this week (NaN %) or with a negative total (−Infinity %) is excluded, because `real` has neither value. `weekStart`/`weekEnd` are returned as timestamps, not as 'dd/MM' labels.
- DateUtils.GetDailyStats: the entry's `date` label ('EEE' weekday name) is left out. The entry holds the day start instead.
- DateUtils.HourlyStatsConserveTime: states conservation only for sessions that stay within one calendar day and whose duration equals end − start. The code credits wrapping or inconsistent sessions without any such guarantee, and that behaviour is modelled by DateUtils.GetHourlyStats itself.
- DateUtils.FormatDuration: takes whole non-negative seconds. Negative or fractional inputs are not modelled. The same holds for DateUtils.FormatDurationDetailed and TimerDisplay.Render.
- HeatMap.Tooltip: takes the whole number of seconds. The `Math.round(minutes * 60)` that produces it from floating-point minutes is left out.
- The `/ 60` and `/ 3600` conversions to minutes and hours, and the rounding to 2 or 4 decimals, are left out. They are floating-point arithmetic, so every aggregate is kept in seconds.
- Sub-second parts of timestamps, daylight-saving shifts and date-fns' locale-dependent week boundaries are left out. Time is whole seconds from a Monday-midnight epoch.
- Storage.LocalStore.ImportFromJSON: the code stores the imported `sessions` and a truthy `settings` without checking their shape. The model types them as Session and Settings records, so a value of another shape is not represented.
- `toLocaleDateString('es-MX')` is a parameter (`dateLabel`) of the session-table search, because its format belongs to the browser.
- `exportToCSV` is left out. Its text is built from locale date and time formatting.
- The `exportDate` ISO stamp of `exportToJSON` is left out. It reads the wall clock.
- `generateDemoData` is left out. It depends on `Math.random` and `crypto.randomUUID`.
- The remote store (src/utils/supabaseStorage.ts) is not part of this model. It is a network client. The timer receives its insert result as a `StoreOutcome` parameter, and the settings it loads as a parameter of `LoadSettings`.
- The 3 s and 4 s auto-dismiss of the saved message is left out. It runs through `setTimeout`.
- The fullscreen API, the keyboard listener, cursor hiding and React's re-render and stale-closure ordering are left out. Fullscreen requests are returned as a `Screen` value, and the timer's operations are sequential method calls.
- The chart, layout, routing and settings-page components are left out. They only render.

## Findings

| source | as written | input that shows it | evidently intended | confidence | as-written member | corrected member |
|---|---|---|---|---|---|---|
| src/utils/dateUtils.ts:40-45 | each day's sessions are those whose start lies in `[dayStart, dayStart + 1 day]`, end included | one session starting exactly at Tuesday 00:00:00 of the current week: it is counted in full on Monday's bar and on Tuesday's bar, but once in the weekly total, so the bars add up to more than the week. Likewise a session starting at the next Monday 00:00:00 is counted on Sunday's bar but not in the weekly total (DateUtils.SundayIncludesNextMonday) | a half-open day `[dayStart, dayStart + 1 day)`, so every session lands on exactly one bar and the seven bars add up to the weekly total | low: not executed; an exact-midnight start needs a session begun at 00:00:00.000 | DateUtils.DailyStatsMidnightCountedTwice | DateUtils.HalfOpenDaysPartitionWeek |
