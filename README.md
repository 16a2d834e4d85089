# task-tally-charts: a Dafny model of the habit tracker's core

task-tally-charts is a daily habit tracker. A catalogue of tasks, each worth
some points, is ticked off day by day. The app derives monthly statistics
from the ticks: points earned per day, average completion rate, active and
perfect days, a streak, per-task completion rates, and a six-month summary.
Records are kept either in the browser (the local store) or in a hosted
database (the hosted store). A scheduled function e-mails a reminder to
every user who still has tasks open today.

This project models that core in Dafny:

- `tasks.dfy` (`Tasks`): the task, record and chart-point types, the
  13-task default catalogue and its fixed total of 30 points, catalogue
  lookup and `editTask`'s catalogue update.
- `percent.dfy` (`Percent`): `Math.round((a / b) * 100)` in integers, plus
  the zero-guarded form the views use.
- `tally.dfy` (`Tally`): the per-name completion counter behind
  `getTaskStats`. It is a record whose entries keep insertion order, as
  `Object.entries` does for string keys.
- `local_store.dfy` (`LocalStore`): the browser-storage hook as a class. It
  holds the selected day, a map from day to cached `DailyRecord`, and the
  catalogue. Earned points are cached when a task is toggled and not
  recomputed later.
- `hosted_store.dfy` (`HostedStore`): the database-backed hook as a class.
  It holds a signed-in flag, the selected day, the catalogue, and a map
  from day to completion rows. Earned points are recomputed from the current
  catalogue. Each write to the database is returned as a value.
- `stats_cards.dfy` (`StatsCards`): the month's stat cards, including the
  streak loop as a method, proved against a streak specification.
- `monthly_bar_chart.dfy`, `monthly_progress.dfy`, `theme.dfy`: the colour
  bands, the six-month summary, the trend arrows and the table.
- `task_editor.dfy` (`TaskEditor`): the edit dialog as a class, with
  JavaScript's `trim` and the points clamp.
- `task_list.dfy`, `task_pie_chart.dfy`: the task list header and the
  completion pie.
- `date_navigator.dfy`, `month_selector.dfy`: day and month navigation. It
  never moves into the future.
- `daily_reminder.dfy` (`DailyReminder`): the reminder function's two loops
  and its response.

Days are integer day keys and months are integer month indices
(12·year + month). The current date, the number of days in a month, and
every database or mailer outcome are parameters.

The model follows the code on three points a reader might expect otherwise:

- The stat cards and the six-month summary compare against the fixed
  `TOTAL_POSSIBLE_POINTS` (30, the default catalogue's total), not the
  current catalogue's total. This applies to the possible points, perfect
  days (`earned == 30`) and the streak threshold (`earned >= 15`).
- The stores' `editTask` validates nothing. Only the edit dialog trims the
  name, rejects a blank one, and clamps the points to 1–10.
- The streak scans the whole month backwards from its last calendar day.
  Days after today have no points and are skipped, like any other empty day.

## Model

| member | source | states |
|---|---|---|
| Tasks.DefaultTasksWellFormed | src/types/task.ts:15-29 | the default catalogue has 13 tasks with distinct ids, each worth 1 to 10 points |
| Tasks.TotalPossibleIsSum | src/types/task.ts:31 | `TOTAL_POSSIBLE_POINTS` (30) is the sum of the default catalogue's points |
| Tasks.DefaultEntryAtMostTotal | src/types/task.ts:15-31 | every default task is worth between 1 and the 30-point total |
| Tasks.EntryAtMostSum | src/hooks/useTaskData.ts:38 | with non-negative points, any one task's points lie between 0 and the catalogue total |
| Tasks.SumPointsNonNegative | src/hooks/useTaskData.ts:38 | a catalogue of non-negative points has a non-negative total |
| Tasks.FindTask | src/hooks/useTaskData.ts:45 | `find` by id: none exactly when no entry has the id, otherwise the first entry with it |
| Tasks.Unticked | src/hooks/useTaskData.ts:51 | the catalogue in order, same ids, names and points, every task incomplete |
| Tasks.CompletedCount | src/components/TaskList.tsx:28 | the completed count never exceeds the number of tasks |
| Tasks.UntickedEarnsNothing | src/hooks/useTaskData.ts:140 | an all-incomplete day earns 0 points and counts 0 completed tasks |
| Tasks.EditCatalogue | src/hooks/useTaskData.ts:85-89 | length, order and ids kept; entries with the id get the new name and points; all others unchanged |
| Tasks.EditCatalogueFacts | src/hooks/useTaskData.ts:85-89 | an unknown id leaves the catalogue unchanged; distinct ids stay distinct |
| Percent.RoundedPercent | src/hooks/useTaskData.ts:135 | the result is the integer nearest to 100·a/b, halves rounded up: r − ½ ≤ 100·a/b < r + ½ |
| Percent.GuardedPercent | src/components/TaskList.tsx:29 | 0 when the denominator is not positive, otherwise the rounded percentage |
| Percent.RoundedPercentInRange | src/components/StatsCards.tsx:12 | a share of a whole is 0 to 100 %; none of it is 0 % and all of it 100 % |
| Percent.GuardedPercentInRange | src/components/TaskList.tsx:29 | the guarded percentage of a share of a whole is 0 to 100 |
| Percent.RoundedPercentMonotone | src/components/MonthlyProgress.tsx:25 | earning more never rounds to a lower percentage |
| Tally.ZeroCounter | src/hooks/useTaskData.ts:113-116 | the initialising loop builds the counter with every catalogue name at 0 |
| Tally.ZeroedFacts | src/hooks/useTaskData.ts:113-116 | that counter is well formed, holds exactly the catalogue names at 0, and keeps distinct names in catalogue order |
| Tally.ResetFacts | src/hooks/useTaskData.ts:115 | `counter[name] = 0` keeps the dictionary well formed, sets the name to 0, appends a new name last, keeps an existing one in place and changes no other entry |
| Tally.BumpAllFacts | src/hooks/useTaskData.ts:126 | counting events keeps the counter well formed, keeps existing keys in order with new names after them, and each count is its start value plus the name's occurrences (`|| 0` for new names) |
| Tally.BumpAllAppend | src/hooks/useTaskData.ts:118-130 | counting two runs of events one after the other is counting their concatenation |
| Tally.OccurrencesAppend | src/hooks/useTaskData.ts:118-130 | occurrences of a name add up over concatenation |
| Tally.OccurrencesAbsent | src/hooks/useTaskData.ts:126 | a name absent from the events occurs 0 times |
| Tally.Entries | src/hooks/useTaskData.ts:132-136 | one entry per counter key in insertion order, with its count and the rounded share of the month's days |
| Tally.StatsNames | src/hooks/useTaskData.ts:113-136 | the month's statistics name no task twice, list every catalogue name, otherwise only names from completion events, and with distinct catalogue names start with the catalogue in order |
| Tally.StatsCounts | src/hooks/useTaskData.ts:118-136 | each entry counts exactly the completion events under its name, and its percentage is that count's rounded share of the days |
| LocalStore.PointsOf | src/hooks/useTaskData.ts:70-71 | a completed task is priced by its catalogue entry unless that is missing or worth 0 (`||`), then by its stored points |
| LocalStore.FlipTask | src/hooks/useTaskData.ts:63-65 | same length, ids, names and points; a task's flag is negated exactly when its id matches |
| LocalStore.FlipTwice | src/hooks/useTaskData.ts:63-65 | flipping the same id twice restores the tasks |
| LocalStore.FlipAbsent | src/hooks/useTaskData.ts:63-65 | flipping an id no task has changes nothing |
| LocalStore.FreshRecord | src/hooks/useTaskData.ts:56-61 | a new record has the date, all catalogue tasks incomplete, the catalogue total and 0 earned |
| LocalStore.ToggledRecord | src/hooks/useTaskData.ts:63-81 | a toggle keeps date and total, flips the id, and caches the points recomputed from the current catalogue |
| LocalStore.ToggleTwiceRestores | src/hooks/useTaskData.ts:54-83 | toggling the same id twice restores a record whose cached points were up to date |
| LocalStore.FreshRecordConsistent | src/hooks/useTaskData.ts:56-72 | a new record's 0 earned points agree with a recomputation under any catalogue |
| LocalStore.UntickedRecomputesToZero | src/hooks/useTaskData.ts:67-72 | an all-incomplete list is worth 0 points under any catalogue |
| LocalStore.FirstToggleEarnsTaskPoints | src/hooks/useTaskData.ts:54-83 | ticking a task on an empty day earns exactly that task's points (distinct ids, non-zero points) |
| LocalStore.FlipOneOfUnticked | src/hooks/useTaskData.ts:63-72 | in an all-incomplete list with distinct ids, flipping one task earns exactly its catalogue points |
| LocalStore.TodaysTasks | src/hooks/useTaskData.ts:40-52 | no record: the catalogue, all incomplete; a record: its tasks and flags in order, with name and points from the catalogue entry when there is one |
| LocalStore.MonthlyData | src/hooks/useTaskData.ts:91-106 | one point per day in order, earned is the cached value (`|| 0` without a record), total is the current catalogue total |
| LocalStore.EditKeepsMonthlyEarned | src/hooks/useTaskData.ts:102 | editing the catalogue changes no day's earned points: cached values are not recomputed |
| LocalStore.ResolvedName | src/hooks/useTaskData.ts:124-125 | a completion counts under the catalogue name unless that is missing or empty (`||`), then the stored name |
| LocalStore.CountDay | src/hooks/useTaskData.ts:122-128 | the per-day loop adds one to the resolved name of every completed task, in order |
| LocalStore.LocalTaskStore.constructor | src/hooks/useTaskData.ts:9-11 | the hook starts on today with no records and the default catalogue, and its invariant (distinct catalogue ids, every record carrying them in order) holds |
| LocalStore.LocalTaskStore.SetCurrentDate | src/hooks/useTaskData.ts:9 | selecting a day changes nothing else and keeps the invariant |
| LocalStore.LocalTaskStore.ToggleTask | src/hooks/useTaskData.ts:54-83 | the selected day's record (fresh if missing) is replaced by its toggled form; every other day's record and the catalogue are unchanged; the invariant is kept |
| LocalStore.LocalTaskStore.EditTask | src/hooks/useTaskData.ts:85-89 | the catalogue is updated by id; records and date are unchanged; the invariant is kept |
| LocalStore.LocalTaskStore.EarnedPoints | src/hooks/useTaskData.ts:139-140 | a day without a record earns 0; in a valid store with no negative points, the day earns between 0 and the catalogue total |
| LocalStore.SameIdsKept | src/hooks/useTaskData.ts:56-65 | a fresh record carries the catalogue's ids in order, a toggle keeps a record's ids, and an edit (lines 85-89) keeps the catalogue's ids |
| LocalStore.RecordEarnedWithinTotal | src/hooks/useTaskData.ts:40-52 | with distinct catalogue ids and the record carrying them, the day shows the catalogue's entries in order and, with no negative points, earns between 0 and the catalogue total |
| LocalStore.LocalTaskStore.GetTaskStats | src/hooks/useTaskData.ts:108-137 | the nested loops produce exactly the month's statistics: catalogue names, then the completion events of the month's days in order |
| HostedStore.GroupByDate | src/hooks/useTaskDataSupabase.ts:91-97 | a date has a group exactly when some loaded row has it, and its group is that date's rows in load order |
| HostedStore.RowsOnLength | src/hooks/useTaskDataSupabase.ts:91-97 | a date's group has as many rows as were loaded for it |
| HostedStore.RowsOnAbsent | src/hooks/useTaskDataSupabase.ts:91-97 | a date with no loaded rows has an empty group |
| HostedStore.FirstRow | src/hooks/useTaskDataSupabase.ts:132 | `findIndex`: none when no row has the id, otherwise the first such row |
| HostedStore.FirstRowUnique | src/hooks/useTaskDataSupabase.ts:132 | the first row with the id is found at its position |
| HostedStore.TodaysTasks | src/hooks/useTaskDataSupabase.ts:108-118 | the catalogue in order, each task completed exactly when its first row for the day says so |
| HostedStore.NoRowsAllUnticked | src/hooks/useTaskDataSupabase.ts:109-117 | a day with no rows shows the catalogue all incomplete |
| HostedStore.SetRow | src/hooks/useTaskDataSupabase.ts:130-141 | the first row with the id is rewritten, or a row is appended when there is none |
| HostedStore.SetRowReads | src/hooks/useTaskDataSupabase.ts:130-141 | after setting a row, that id reads the new flag and every other id its old one |
| HostedStore.ToggleFlipsShownFlag | src/hooks/useTaskDataSupabase.ts:120-141 | a toggle flips the shown flag of the toggled task only; toggling twice shows the original flags |
| HostedStore.RowsEarnedNothing | src/hooks/useTaskDataSupabase.ts:196-201 | completed rows for tasks missing from the catalogue earn nothing (`|| 0`) |
| HostedStore.MonthlyData | src/hooks/useTaskDataSupabase.ts:187-210 | one point per day in order, earned recomputed from the day's rows under the current catalogue, total the catalogue total |
| HostedStore.MonthlyEarnedFollowsCatalogue | src/hooks/useTaskDataSupabase.ts:196-201 | a day with one completed catalogue task earns that task's current points |
| Tasks.FindDistinct | src/hooks/useTaskDataSupabase.ts:199 | with distinct ids, looking a catalogue entry's id up finds that entry |
| Tasks.CompletedWithinSum | src/hooks/useTaskData.ts:139-140 | tasks priced like the catalogue, position by position, earn between 0 and its total when no points are negative |
| HostedStore.DayEventsAreCatalogueNames | src/hooks/useTaskDataSupabase.ts:226-233 | completions count only under names of catalogue tasks |
| HostedStore.CountDay | src/hooks/useTaskDataSupabase.ts:226-233 | the per-day loop adds one to the catalogue name of every completed row whose task exists |
| Tasks.CatalogueNames | src/hooks/useTaskDataSupabase.ts:218-220 | the catalogue's names in order, one per task (both stores zero the counter from them) |
| HostedStore.FindShown | src/hooks/useTaskDataSupabase.ts:124 | `find` on the shown tasks: none exactly when no task has the id |
| HostedStore.ShownMatchesCatalogue | src/hooks/useTaskDataSupabase.ts:123-125 | a task is among the shown ones exactly when the catalogue has its id; the one found carries the catalogue entry's name and points and the row's completion flag |
| HostedStore.EarnedWithinTotal | src/hooks/useTaskDataSupabase.ts:243-244 | with non-negative points, the shown day earns between 0 and the catalogue total |
| HostedStore.HostedTaskStore.constructor | src/hooks/useTaskDataSupabase.ts:22-24 | the hook starts on today with no records and the default catalogue |
| HostedStore.HostedTaskStore.LoadRecords | src/hooks/useTaskDataSupabase.ts:85-99 | a failed load keeps the records; a successful one replaces them by the loaded rows grouped by date |
| HostedStore.HostedTaskStore.ToggleTask | src/hooks/useTaskDataSupabase.ts:120-153 | signed out or unknown id: nothing; otherwise only the selected day's rows change (flag negated) and the upsert with the new flag is returned |
| HostedStore.HostedTaskStore.EditTask | src/hooks/useTaskDataSupabase.ts:165-175 | signed out: nothing; otherwise the catalogue is updated by id and the update is returned |
| HostedStore.HostedTaskStore.EarnedPoints | src/hooks/useTaskDataSupabase.ts:243-244 | with non-negative points, today's earned points lie between 0 and the catalogue total |
| HostedStore.HostedTaskStore.GetTaskStats | src/hooks/useTaskDataSupabase.ts:212-241 | the nested loops produce exactly the month's statistics: catalogue names, then the completions of catalogue tasks day by day |
| StatsCards.AvgPercentage | src/components/StatsCards.tsx:10-12 | 0 for an empty month, otherwise the rounded share of earned over possible points |
| StatsCards.AvgPercentageInRange | src/components/StatsCards.tsx:10-12 | with each day between 0 and 30 points, the average is 0 to 100 |
| StatsCards.EarnedWithinPossible | src/components/StatsCards.tsx:10-11 | with each day between 0 and 30 points, the total earned is between 0 and the total possible |
| StatsCards.PerfectAtMostActive | src/components/StatsCards.tsx:14-15 | perfect days ≤ active days ≤ days |
| StatsCards.LastStop | src/components/StatsCards.tsx:19-24 | the last day with some but less than half the points, or none when there is no such day |
| StatsCards.LastStopIs | src/components/StatsCards.tsx:22-23 | a stopping day with none after it is the last stop |
| StatsCards.CurrentStreak | src/components/StatsCards.tsx:17-25 | the backward loop returns the number of days with at least half the points after the last stopping day, at most all such days |
| StatsCards.QualifyingSuffix | src/components/StatsCards.tsx:20-21 | a suffix of the month has no more qualifying days than the month |
| StatsCards.QualifyingAppend | src/components/StatsCards.tsx:20-21 | qualifying days add up over concatenation |
| StatsCards.LastStopAppend | src/components/StatsCards.tsx:19-24 | the last stop of a+b is in b if b has one, otherwise a's |
| StatsCards.NoActivityNoStreak | src/components/StatsCards.tsx:18-25 | a month with no points has streak 0 |
| StatsCards.NoneQualify | src/components/StatsCards.tsx:20-21 | with no day at half the points, no day qualifies |
| StatsCards.EmptyDayIsSkipped | src/components/StatsCards.tsx:20-24 | inserting a day with 0 points anywhere leaves the streak unchanged |
| StatsCards.StopDayEndsStreak | src/components/StatsCards.tsx:22-23 | a stopping day with no stop after it cuts the streak to the qualifying days after it |
| MonthlyBarChart.DayBarColor | src/components/MonthlyBarChart.tsx:17-23 | ≥ 80 % accent, 50–80 % primary, above 0 % chart-6, otherwise secondary; each band an if-and-only-if, with a zero total's Infinity and NaN |
| MonthlyBarChart.DayBarColorMonotone | src/components/MonthlyBarChart.tsx:17-23 | earning more never gives a weaker colour |
| MonthlyBarChart.LegendCoversActiveDays | src/components/MonthlyBarChart.tsx:78-91 | every day with points gets a colour that has a legend entry |
| MonthlyProgress.Summarise | src/components/MonthlyProgress.tsx:21-25 | month totals: earned is the sum of the series, possible is days × 30, the average is the zero-guarded rounded percentage of the two, active and perfect days are the counts of days earning something and earning 30; perfect ≤ active ≤ days, the average is 0 without days and 0 to 100 for data within the maximum |
| MonthlyProgress.SummaryAverageInRange | src/components/MonthlyProgress.tsx:22-25 | the month's average is 0 to 100 when each day is within 30 points |
| MonthlyProgress.LastSixMonths | src/components/MonthlyProgress.tsx:15-20 | six summaries, entry i for the month 5 − i before now |
| MonthlyProgress.SixConsecutiveMonths | src/components/MonthlyProgress.tsx:15-17 | the six months are consecutive and end with the current one |
| MonthlyProgress.MonthBarColor | src/components/MonthlyProgress.tsx:40-45 | ≥ 70 accent, 40–70 primary, above 0 chart-6, otherwise secondary, each an if-and-only-if |
| MonthlyProgress.MonthBarColorMonotone | src/components/MonthlyProgress.tsx:40-45 | a higher average never gives a weaker colour |
| MonthlyProgress.TrendOf | src/components/MonthlyProgress.tsx:47-51 | up exactly when higher, down exactly when lower, same exactly when equal |
| MonthlyProgress.TrendSwap | src/components/MonthlyProgress.tsx:47-51 | swapping the months turns up into down and keeps same |
| MonthlyProgress.Table | src/components/MonthlyProgress.tsx:117-121 | rows newest first; each row's trend compares it with the month before; the oldest row has no trend |
| MonthlyProgress.SixMonthTable | src/components/MonthlyProgress.tsx:117-121 | the table starts with the current month and each trend compares consecutive months |
| MonthlyProgress.TableOfSix | src/components/MonthlyProgress.tsx:117-121 | for any six consecutively numbered summaries, the reversed table lists them newest first, compares each with its predecessor and shows no trend on the oldest |
| TaskEditor.Trim | src/components/TaskEditor.tsx:19-20 | a contiguous part of the text with only white space cut at both ends, not starting or ending in white space; empty exactly when the text is blank |
| TaskEditor.ClampPoints | src/components/TaskEditor.tsx:63 | always 1 to 10; unparsable or 0 gives 1; 1–10 is kept; above 10 gives 10; below 1 gives 1 |
| TaskEditor.TaskEditorDialog.constructor | src/components/TaskEditor.tsx:14-16 | closed, showing the task's name and points |
| TaskEditor.TaskEditorDialog.SetOpen | src/components/TaskEditor.tsx:32 | opening or closing keeps the edited values |
| TaskEditor.TaskEditorDialog.ChangeName | src/components/TaskEditor.tsx:52 | the name is taken as typed |
| TaskEditor.TaskEditorDialog.ChangePoints | src/components/TaskEditor.tsx:63 | the points become the clamped value, 1 to 10 |
| TaskEditor.TaskEditorDialog.Save | src/components/TaskEditor.tsx:18-23 | a non-blank name and positive points hand on the trimmed name and close; otherwise nothing happens |
| TaskEditor.TaskEditorDialog.Cancel | src/components/TaskEditor.tsx:25-29 | the values of the current `task` prop are restored and the dialog closes |
| TaskEditor.TaskEditorDialog.Rerender | src/components/TaskEditor.tsx:8-16 | a re-render with the task of the same id (the item is keyed by id) replaces the prop and keeps `open`, `name` and `points`; a later Cancel restores the new prop's values |
| TaskEditor.ChangedPointsAlwaysAcceptable | src/components/TaskEditor.tsx:63 | after the points field is changed, a save is refused exactly for a blank name, and the points handed on are 1 to 10 |
| TaskList.HeaderOf | src/components/TaskList.tsx:28-30 | completed of all tasks, the guarded percentage (0 to 100 for a share of the total), and the past-record marks exactly when the day is not today |
| TaskList.CompletedCountExtremes | src/components/TaskList.tsx:28 | the count is n/n exactly when every task is ticked and 0/n exactly when none is |
| DateNavigator.CanGoNext | src/components/DateNavigator.tsx:28 | Next is enabled exactly for a day before today |
| DateNavigator.Step | src/components/DateNavigator.tsx:13-26 | previous day; next day only when it is not in the future; today; a picked day, a cleared pick ignored |
| DateNavigator.NextEnabledIffMoves | src/components/DateNavigator.tsx:17-28 | the Next button is enabled exactly when clicking it changes the day |
| DateNavigator.TodayShownIffMoves | src/components/DateNavigator.tsx:24-29 | the Today button is shown exactly when clicking it changes the day |
| DateNavigator.NeverInFuture | src/components/DateNavigator.tsx:13-54 | from a day not in the future, no clicks with enabled calendar picks reach a future day |
| MonthSelector.AddMonths | src/components/MonthSelector.tsx:16 | moves the month by k and keeps the day of the month |
| MonthSelector.StepAsWritten | src/components/MonthSelector.tsx:11-24 | previous month; Next moves a month ahead only to a date not after today; Today jumps to today |
| MonthSelector.NextEnabledButInert | src/components/MonthSelector.tsx:15-20 | as written, Next is enabled but does nothing exactly when the previous month is shown on a later day of the month than today |
| MonthSelector.NextInertExample | src/components/MonthSelector.tsx:26 | with the page opened on 31 October, still open on 1 November and then re-rendered by some other change (ticking a task, say), October is shown, Next is enabled and the click does nothing |
| MonthSelector.AsWrittenNeverAfterToday | src/components/MonthSelector.tsx:11-24 | as written, from a date not after today, no series of clicks reaches one that is |
| MonthSelector.AsWrittenNextStuck | src/components/MonthSelector.tsx:15-20 | as written, once the previous month is shown on a later day than today's, any number of Next clicks leaves the date unchanged |
| MonthSelector.Step | src/components/MonthSelector.tsx:11-24 | Next corrected: before today's month it always moves one month ahead and never past today, and agrees with the original wherever that moves |
| MonthSelector.NextEnabledIffMoves | src/components/MonthSelector.tsx:50 | with the correction, Next is enabled exactly when clicking it changes the month |
| MonthSelector.NeverAfterToday | src/components/MonthSelector.tsx:11-24 | with Next corrected (`Step`), from a date not after today, no clicks reach one that is; `AsWrittenNeverAfterToday` states the same for the handlers as written |
| MonthSelector.NextReachesLaterMonths | src/components/MonthSelector.tsx:15-20 | with Next corrected (`Step`), k clicks on Next reach the month k later, up to today's month; as written this fails (`AsWrittenNextStuck`) |
| TaskPieChart.Filtered | src/components/TaskPieChart.tsx:32 | exactly the entries with completions, no more entries than before |
| TaskPieChart.FilteredAppend | src/components/TaskPieChart.tsx:32 | filtering keeps the order: it distributes over concatenation |
| TaskPieChart.FilteredDistinct | src/components/TaskPieChart.tsx:32 | filtering keeps distinct names distinct |
| TaskPieChart.SliceColour | src/components/TaskPieChart.tsx:74 | a palette colour; the first 13 slices take the palette in order |
| TaskPieChart.SliceColourPeriod | src/components/TaskPieChart.tsx:15-29 | colours repeat every 13 slices and neighbouring slices never share one |
| TaskPieChart.View | src/components/TaskPieChart.tsx:32-48 | the placeholder exactly when nothing was completed; otherwise one slice per completed task in order, coloured by position |
| TaskPieChart.TooltipPercentage | src/components/TaskPieChart.tsx:87 | none exactly when no slice has the name, otherwise the first such slice's percentage |
| TaskPieChart.TooltipShowsSlice | src/components/TaskPieChart.tsx:86-89 | with distinct names, hovering a slice shows its own percentage |
| DailyReminder.CompletedIds | supabase/functions/send-daily-reminder/index.ts:81-85 | exactly the ids of today's rows marked completed |
| DailyReminder.Incomplete | supabase/functions/send-daily-reminder/index.ts:87-89 | exactly the task ids not completed today, each kept as often as it occurs among the tasks (so its length is the e-mailed count), no more than there are tasks |
| DailyReminder.Decide | supabase/functions/send-daily-reminder/index.ts:50-99 | a reminder exactly for an account with an address, both queries answered and some task not completed; its count is the number of incomplete tasks (`incompleteTasks.length`), between 1 and all of the tasks |
| DailyReminder.Queue | supabase/functions/send-daily-reminder/index.ts:47-100 | at most one reminder per account |
| DailyReminder.QueueSound | supabase/functions/send-daily-reminder/index.ts:47-100 | every queued reminder is an account's decided reminder, counting exactly that account's incomplete tasks, at least one |
| DailyReminder.QueueComplete | supabase/functions/send-daily-reminder/index.ts:47-100 | every account that needs a reminder gets it |
| DailyReminder.QueueReminders | supabase/functions/send-daily-reminder/index.ts:47-100 | the loop with its `continue`s builds exactly the queue |
| DailyReminder.SendReminders | supabase/functions/send-daily-reminder/index.ts:105-155 | one result per queued reminder in order, with the mailer's outcome; a failure does not stop the loop |
| DailyReminder.Handle | supabase/functions/send-daily-reminder/index.ts:22-178 | preflight answers "ok"; a failed account listing is a 500; otherwise the report with today's date, accounts checked, reminders queued and each send's result |
| DailyReminder.Delivered | supabase/functions/send-daily-reminder/index.ts:150-153 | the successful sends number at most the results |
| DailyReminder.DeliveredAll | supabase/functions/send-daily-reminder/index.ts:157-163 | `remindersSent` equals the successful sends exactly when every send succeeded |
| DailyReminder.Wording | supabase/functions/send-daily-reminder/index.ts:126 | "1 task that hasn't", "n tasks that haven't" for n > 1 |

## Left out

- Storage and database I/O are not modelled: localStorage load and save, JSON, the auth session, and the queries, inserts, upserts and updates. The hosted store returns each write as a value instead. A failed write's toast is left out, and so is the fact that the optimistic update stays in place after a failed write.
- LocalStore.LocalTaskStore.Valid holds for every state built by the model's operations from the constructor. Records and a catalogue loaded from localStorage are not modelled, and nothing constrains them.
- `loadUserTasks` in the hosted hook is not modelled: loading the catalogue, or inserting the defaults for a new user. The catalogue is a field that starts as the default catalogue.
- The `loading` flag and the hosted records' reload when the selected day changes are left out. `LoadRecords` takes the query's answer as a parameter.
- Calendar arithmetic is not modelled. date-fns month bounds, `eachDayOfInterval`, `addMonths`' clamping to the month's last day, and time of day are left out. Days are integers, a month is its first day plus its number of days, and the month selector compares dates by month and day.
- Numbers are unbounded integers, not floating point. Division results are compared exactly. The only floating-point outcomes modelled are the bar chart's Infinity and NaN for a zero total.
- Key order in `Object.entries` is modelled as insertion order. JavaScript lists integer-like keys (a task named "7") first, in numeric order.
- LocalStore.LocalTaskStore.GetTaskStats and HostedStore.HostedTaskStore.GetTaskStats require a positive number of days, because every calendar month has at least 28.
- Rendering, styling, icons, text formatting of dates and numbers, and chart layout are not modelled. Only the values the views compute are.
- Reminder function plumbing is not modelled: environment variables, CORS headers, logging, the e-mail's HTML, and exceptions other than the account listing and the mailer. Each account's two query outcomes and each send's outcome are inputs.
- `src/components/TaskItem.tsx` and `src/pages/Index.tsx` only pass values through. They are not part of this model.

## Findings

| source | as written | input that shows it | evidently intended | confidence | as-written member | corrected member |
|---|---|---|---|---|---|---|
| src/components/MonthSelector.tsx:15-20 | Next is enabled whenever the shown month is not today's (line 50), but the handler moves only if the whole date one month later is not after today | open the page on 31 October and leave it open past midnight; the button's state is only computed on a render and nothing re-renders on a clock, so on 1 November tick or untick a task to make the page re-render; October is still shown, so Next is now enabled, yet the date one month later (30 November) is after today, so the click does nothing, however often it is repeated | Next moves into the following month, at most to today | medium, not executed | MonthSelector.NextEnabledButInert | MonthSelector.Step |
