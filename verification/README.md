# Priorities Tracker analytics, in Dafny

The Priorities Tracker is a Streamlit app. It keeps a log of activities (timestamp, priority, description, hours, remarks) and a schedule of planned activities. Both live in a spreadsheet. The app comes in three near-identical scripts. This project models the part of them that computes rather than displays:

- `calculate_streaks`: per priority, the current run of consecutive active days, the longest run and the last active date.
- `calculate_kpis`: total hours, hours per day over the span of the log, per-priority daily averages, and the most active priority.
- Plan against actual, in two variants. Both do a full outer join of planned and logged hours on (calendar date, priority), with 0 where one side has no rows.
  - `analyze_schedule_vs_actual` adds completion rates and totals.
  - `create_plan_vs_actual_analysis` adds:
    - the required-column checks
    - a separate time window on each table
    - the difference column
    - per-priority totals and percentage deviation.
- Schedule expansion: one submitted template becomes one-time, daily (seven days) or weekly rows.
- `format_time`, the `HH:MM:SS` display of the timer.
- The start/stop timer in its two variants:
  - accumulating (`more_featgpt.py`)
  - overwriting (`final_appwdb_feat.py` and `latestapp_v2.py`)
- The log rule that picks the logged duration and resets the timer.
- Time-zone normalisation of loaded timestamps to India Standard Time (IST), a fixed +05:30.
- The "Time Period" filters of the dashboard and of the plan-vs-actual analysis.
- The top of `create_dashboard`: emptiness check, filter, KPIs.

Representation:

- Timestamps are whole minutes of IST wall clock since 1970-01-01 00:00. The seconds the logger writes are dropped (see Left out).
- Calendar dates are day numbers, and `Day(m) = m / 1440`.
- Durations are exact `real` hours.
- Clock readings of the timer are `real` seconds.
- "Now" is always a parameter.
- Tables are sequences of rows.
- Errors and warnings are `Result` failures.

Modules:

| module | content |
|---|---|
| `Order`, `Sorting`, `Sums`, `Wrappers` | strict total orders, sorting into distinct ascending sequences, keyed sums and their conservation, `Option`/`Result` |
| `Records` | the row types, the (date, priority) key and its order, and the distinct dates of a priority |
| `Streaks`, `Kpis` | `calculate_streaks` and `calculate_kpis` |
| `Filters`, `TimeZone` | period filters; localise/convert to IST |
| `Reconcile`, `PlanVsActual` | the two plan-vs-actual variants |
| `Schedule`, `Clock`, `Timer`, `Dashboard` | schedule expansion, `format_time`, the timers and logging, and the dashboard's handling of an empty window |

### Naive timestamps

The log is written without a zone: both loggers store the IST wall clock as `%Y-%m-%d %H:%M:%S` (`latestapp_v2.py:455`, `more_featgpt.py:507`). `load_data` of `more_featgpt.py:51` reads such values back as IST (`Asia/Kolkata`). `load_data` in `latestapp_v2.py:47-52` does otherwise: it localises naive timestamps as UTC and then converts them to IST. The plan-vs-actual analysis has a branch that localises naive timestamps as IST (`latestapp_v2.py:329-330`), which shows the reading intended. That branch is unreachable for loaded timestamps, though. Its log comes from `load_data` (`latestapp_v2.py:309`), which has already made every timestamp aware, so only the re-conversion at line 332 runs (`TimeZone.SecondPassIsNoOp`). The model keeps that code as written (`TimeZone.LoadTimestamp`). The resulting date shift is listed under Findings. The corrected reading is `TimeZone.ToIst`, which localises naive values as IST.

The analytics modules take timestamps that are already IST wall clock, which is the corrected reading.

## Model

| member | source | states |
|---|---|---|
| Streaks.CalculateStreaks | final_appwdb_feat.py:54-84 | `{}` for an empty log; otherwise exactly one entry per priority present, each a streak record of that priority's distinct dates with 1 ≤ current ≤ longest ≤ number of dates |
| Streaks.StreakOf | final_appwdb_feat.py:64-82 | for ascending distinct dates: current is the length of the maximal run of consecutive days ending at the last date; longest is the length of a run that exists and that no run exceeds; last activity is the latest date |
| Streaks.Walk | final_appwdb_feat.py:66-76 | the loop over the dates after the first ends with the run ending at the last date and the longest run among all dates |
| Streaks.Next | final_appwdb_feat.py:70-76 | one iteration keeps both loop facts: the run ending at the current date and the longest run so far |
| Streaks.Latest | final_appwdb_feat.py:81 | `max(priority_dates)` is one of the dates and no date is later |
| Records.DistinctDays | final_appwdb_feat.py:63-64 | the dates of a priority are strictly ascending, and a date is listed exactly when some row of that priority falls on it |
| Records.Priorities | final_appwdb_feat.py:62 | a priority is listed exactly when some row carries it |
| Records.Day | final_appwdb_feat.py:59 | `.dt.date` of a wall-clock timestamp, rounding down; its partners `Filters.DayMonotone` (dates never run backwards) and `Filters.LogWindowStartsAtMidnight` (a date is on or after a cutoff date exactly when the timestamp is at or after that date's midnight) |
| Records.DaysOfPresentPriorities | final_appwdb_feat.py:62-64 | every priority present has at least one date, so `priority_dates[0]` exists |
| Kpis.CalculateKpis | final_appwdb_feat.py:86-107 | fails exactly on an empty log (pandas raises there); otherwise every indicator meets its reference definition (`Kpis.Describes`) |
| Kpis.TotalHoursPermutation | final_appwdb_feat.py:91 | total hours do not depend on the order of the rows |
| Kpis.TotalHours | final_appwdb_feat.py:91 | `df['Duration'].sum()`; its partner `Kpis.TotalHoursPermutation` shows the row order does not matter |
| Kpis.Earliest | final_appwdb_feat.py:94 | `Timestamp.min()` is a timestamp of the log and none is earlier |
| Kpis.LatestTimestamp | final_appwdb_feat.py:94 | `Timestamp.max()` is a timestamp of the log and none is later |
| Kpis.SpanDays | final_appwdb_feat.py:94 | the span is at least 1 and is the number of whole days between earliest and latest, plus one |
| Kpis.AvgHoursPerDay | final_appwdb_feat.py:94-95 | the average is total hours over the span (the span is never 0, so the `else 0` branch is dead) |
| Kpis.AvgTimesSpan | final_appwdb_feat.py:94-95 | average times span gives back the total |
| Kpis.AvgHoursBounds | final_appwdb_feat.py:94-95 | with non-negative hours, 0 ≤ average ≤ total; within 24 hours the average is the total |
| Kpis.PriorityAverage | final_appwdb_feat.py:98-101 | a priority's average is its total over the number of distinct dates it has entries on; idle days do not count |
| Kpis.DayTotalsAddUp | final_appwdb_feat.py:98-100 | the per-(date, priority) totals of a priority add up to the priority's total |
| Kpis.PriorityTotal | final_appwdb_feat.py:104 | `df.groupby('Priority')['Duration'].sum()[p]`; its partner `Kpis.DayTotalsAddUp` shows it is the sum of the priority's per-day group totals |
| Kpis.PriorityAverages | final_appwdb_feat.py:98-101 | one average per priority present and none other |
| Kpis.MostActiveFrom | final_appwdb_feat.py:104 | the scan ends on a present priority at least as good as every other: a larger total, or an equal one and a label sorting first |
| Kpis.MostActive | final_appwdb_feat.py:104-105 | `idxmax` picks a present priority with maximal total; ties go to the first label in sorted order |
| Kpis.MostActiveUnique | final_appwdb_feat.py:104-105 | the tie-break leaves exactly one candidate |
| Filters.Filter | latestapp_v2.py:167 | a boolean mask keeps exactly the rows that pass, each as often as before |
| Filters.FilterAppend | latestapp_v2.py:167 | masking a concatenation masks each part, so the original order is kept |
| Filters.FilterIdempotent | latestapp_v2.py:167 | masking twice is masking once |
| Filters.Cutoff | latestapp_v2.py:166 | the cutoff lies exactly N days before now |
| Filters.CutoffDay | latestapp_v2.py:339 | the calendar date of the cutoff; its partner `Filters.LogWindowStartsAtMidnight` shows the date window starts at that date's midnight and contains the instant window |
| Filters.DashboardWindow | latestapp_v2.py:164-167 | "All time" keeps the table; "Last N days" keeps exactly the rows at or after now − N days, each as often as it occurs, and no other row |
| Filters.LogWindow | latestapp_v2.py:337-340 | keeps exactly the log rows whose calendar date is on or after the date of now − N days, each as often as it occurs |
| Filters.ScheduleWindow | latestapp_v2.py:337-341 | keeps exactly the schedule rows dated on or after that date, each as often as it occurs, independently of the log |
| Filters.DashboardWindowKeepsOrder | latestapp_v2.py:164-167 | the window of two tables in a row is the window of the first followed by that of the second, so the kept rows stay in their order |
| Filters.LogWindowKeepsOrder | latestapp_v2.py:337-340 | the log window keeps the rows' order in the same way |
| Filters.ScheduleWindowKeepsOrder | latestapp_v2.py:337-341 | the schedule window keeps the entries' order in the same way |
| Filters.LogWindowStartsAtMidnight | latestapp_v2.py:339-340 | the date window is the instant window widened back to midnight of the cutoff date, so it keeps every row the dashboard keeps |
| TimeZone.Localize | latestapp_v2.py:57 | localising accepts only naive values and keeps their wall clock |
| TimeZone.Convert | latestapp_v2.py:52 | converting accepts only aware values and keeps their instant |
| TimeZone.LoadTimestamp | latestapp_v2.py:47-52 | a loaded timestamp is IST-aware; a naive one is read as a UTC instant, an aware one keeps its instant |
| TimeZone.LoadShiftsNaive | latestapp_v2.py:49-50 | loading moves a naive wall clock 330 minutes ahead, onto the next date exactly when it reads 18:30 or later |
| TimeZone.LoadMovesEveningEntry | latestapp_v2.py:49-50 | an entry logged at 2025-01-01 19:00 is read back on 2025-01-02 |
| TimeZone.ToIst | latestapp_v2.py:54-59 | normalising gives an IST-aware value; a naive one keeps its wall clock, an aware one its instant |
| TimeZone.ToIstIdempotent | latestapp_v2.py:321-325 | normalising twice is normalising once |
| TimeZone.SecondPassIsNoOp | latestapp_v2.py:328-332 | the second normalisation in the plan-vs-actual analysis changes no loaded value |
| TimeZone.NormalisingKeepsInstant | latestapp_v2.py:51-52 | an aware value never moves in time |
| TimeZone.LoggedWallClockRoundTrip | more_featgpt.py:50-51 | an IST wall clock written by the logger and read back as IST keeps its wall clock and its date |
| Reconcile.JoinKeys | more_featgpt.py:156-167 | the merge keys are strictly ascending by (date, priority), and a key is present exactly when one of the tables has rows for it |
| Reconcile.PlannedAt | more_featgpt.py:159 | the planned group sum of a key; its partners `Reconcile.MissingSideIsZero` and `Reconcile.JoinConservesTotals` show it is 0 for absent keys and that the groups add up to all planned hours |
| Reconcile.ActualAt | more_featgpt.py:156 | the logged group sum of a key; the same partners show it is 0 for absent keys and that the groups add up to all logged hours |
| Reconcile.OuterJoin | more_featgpt.py:155-170 | one row per key of either table, in ascending date order, carrying that key's planned sum and logged sum |
| Reconcile.MissingSideIsZero | more_featgpt.py:167 | the side with no rows for a key reads 0 (`fillna(0)`) |
| Reconcile.JoinConservesTotals | more_featgpt.py:181-182 | the joined planned column adds up to all planned hours and the actual column to all logged hours: nothing lost, nothing counted twice |
| Reconcile.CompletionRate | more_featgpt.py:173-178 | 0 where nothing is planned; elsewhere the rate times the plan is 100 times the logged hours |
| Reconcile.CompletionReachesHundred | more_featgpt.py:173-178 | where something is planned, the rate reaches 100 exactly when the logged hours reach the plan |
| Reconcile.AnalyzeScheduleVsActual | more_featgpt.py:137-183 | the schedule warning first, then the log warning, and a table exactly when both tables have rows; the table is the outer join with per-row rates; the totals are those of the two input tables; overall completion is the rate of the totals |
| PlanVsActual.CreatePlanVsActual | latestapp_v2.py:303-381 | stops on a missing `Duration` column, checked first, then on a missing `Planned_Duration`; a sheet without records has no columns, so an empty log always stops; otherwise it joins the two windowed tables, differences each row, and summarises per priority against the windowed tables |
| PlanVsActual.PercentageDeviation | latestapp_v2.py:378-381 | 0 where nothing is planned; elsewhere deviation times plan is 100 times the difference |
| PlanVsActual.JoinedDifference | latestapp_v2.py:368 | the `Difference` column; its partner `PlanVsActual.DifferenceAddsUp` shows a priority's differences add up to actual minus planned |
| PlanVsActual.FrameColumns | latestapp_v2.py:43-44 | a sheet without records loads as a frame with no columns; otherwise the header's columns |
| PlanVsActual.DifferenceAddsUp | latestapp_v2.py:368-374 | a priority's differences add up to its actual total minus its planned total |
| PlanVsActual.KpiFor | latestapp_v2.py:371-381 | a priority's row holds its planned and actual sums over the joined rows, Total_Difference = actual − planned, and the deviation of those |
| PlanVsActual.PriorityKpis | latestapp_v2.py:371-375 | one row per priority of the joined table and none other |
| PlanVsActual.KeysWithPriority | latestapp_v2.py:371 | the keys of one priority group, repeating none when the keys repeat none |
| PlanVsActual.RowsAtPriority | latestapp_v2.py:371-373 | the group of a priority holds the planned and logged sums over that priority's keys |
| PlanVsActual.PriorityTotalsConserved | latestapp_v2.py:344-375 | a priority's joined totals are exactly the planned hours of its schedule entries and the logged hours of its log rows |
| PlanVsActual.KeyJoined | latestapp_v2.py:356-361 | every key of either table has its row in the join |
| PlanVsActual.JoinedKeyPresent | latestapp_v2.py:356-361 | every row of the join comes from a key of one of the tables |
| PlanVsActual.JoinPriorities | latestapp_v2.py:356-371 | the priorities of the per-priority table are exactly those of the two windowed tables |
| PlanVsActual.PriorityKpisSummarise | latestapp_v2.py:344-381 | the per-priority table, stated against the windowed tables rather than the join |
| Schedule.WeekdayName | more_featgpt.py:118 | `strftime("%A")` names each date by its place in the week counted from Monday 2025-01-06, forwards and backwards |
| Schedule.CalendarAnchors | more_featgpt.py:118 | 1970-01-01 is a Thursday and 2025-01-06 a Monday |
| Schedule.SameWeekday | more_featgpt.py:118 | two dates share a weekday name exactly when they are a whole number of weeks apart |
| Schedule.ExpandDaily | more_featgpt.py:102-114 | seven rows dated today to today + 6, in order, each carrying the template |
| Schedule.WeeklyDates | more_featgpt.py:115-128 | exactly the dates from start to end with the chosen name, ascending, one week apart, and none when start > end |
| Schedule.ExpandWeekly | more_featgpt.py:115-128 | one row on each of those dates, ascending, each carrying the template |
| Schedule.Expand | more_featgpt.py:92-128 | one-time gives one row on the chosen date, daily seven from today, weekly the matching dates; every row has the template's time, priority, activity and planned hours, the schedule type, and status "Pending" |
| Schedule.Row | more_featgpt.py:119-127 | one appended row; `Schedule.Expand` shows every expanded row carries the template, the schedule type and "Pending" (`Schedule.FromTemplate`) |
| Schedule.TypeName | more_featgpt.py:99 | the `schedule_type` label written into each row, one per recurrence |
| Schedule.FromTemplate | more_featgpt.py:93-100 | the fields every appended row shares: time, priority, activity, planned hours, schedule type, "Pending" |
| Schedule.MondaysOfJanuary2025 | more_featgpt.py:116-118 | from 2025-01-06 to 2025-01-20 the Mondays are the 6th, 13th and 20th |
| Clock.TwoDigits | final_appwdb_feat.py:52 | `:02d` gives at least two characters, exactly two below 100, and a minus sign exactly for negatives |
| Clock.FieldsDecompose | final_appwdb_feat.py:49-51 | floating `//` and `%` give the hours, minutes and seconds of the whole seconds |
| Clock.FloatMod | final_appwdb_feat.py:50-51 | Python's float `%`; its partner `Clock.FieldsDecompose` shows the floored results equal the integer remainders of the whole seconds |
| Clock.FieldsAddUp | final_appwdb_feat.py:49-51 | the fields add back to the seconds rounded down, with minutes and seconds below 60 |
| Clock.ParseDigitsOfDigits | final_appwdb_feat.py:52 | the digits of a number read back to the number |
| Clock.FormatTimeRoundTrip | final_appwdb_feat.py:47-52 | for non-negative seconds the display parses back to the whole seconds: only the fraction is lost |
| Clock.SignShown | final_appwdb_feat.py:49-52 | the display starts with a minus sign exactly for negative readings |
| Clock.FormatExample | final_appwdb_feat.py:47-52 | 3725.5 s shows as `01:02:05` |
| Clock.FormatTime | final_appwdb_feat.py:47-52 | `format_time` itself; its partner `Clock.FormatTimeRoundTrip` reads the display back to the whole seconds |
| Timer.Press | more_featgpt.py:303-311 | Start flips to running at the current reading and keeps the elapsed time; Stop adds the run to the elapsed time |
| Timer.Step | more_featgpt.py:302-319 | a page run returns the displayed seconds over 3600; a press is a Start or Stop, and without a press the state is left alone |
| Timer.PressKeepsShown | more_featgpt.py:308-317 | pressing never changes the display at that instant |
| Timer.Shown | more_featgpt.py:313-317 | the display rule; its partner `Timer.ShownCountsRunningTime` shows it counts exactly the running time |
| Timer.ShownCountsRunningTime | more_featgpt.py:303-319 | after any sequence of runs, the display is the earlier display plus exactly the time the timer ran |
| Timer.ElapsedNeverDecreases | more_featgpt.py:308-311 | with a clock that never goes back, the elapsed time never decreases |
| Timer.ShownNeverDecreases | more_featgpt.py:313-317 | with a clock that never goes back, the display never decreases |
| Timer.OverwritePress | final_appwdb_feat.py:121-131 | Start keeps the elapsed time; Stop replaces it with the latest run alone, unless the start reads 0 |
| Timer.OverwriteRender | final_appwdb_feat.py:133-136 | rendering while running stores the current run's length as the elapsed time |
| Timer.OverwriteStep | final_appwdb_feat.py:121-138 | a page run returns the stored seconds over 3600, and while running that is the current run only; unpressed, a stopped timer is kept and a running one restamped with the current run; Start gives a run of 0 s; Stop stores the latest run |
| Timer.OverwriteStopForgets | final_appwdb_feat.py:127-130 | what Stop stores does not depend on earlier runs |
| Timer.OverwriteLosesEarlierRuns | final_appwdb_feat.py:121-138 | runs of 60 s and 30 s: the accumulating timer holds 90 s, the time it ran; the overwriting one 30 s |
| Timer.LogActivity | more_featgpt.py:509-515 | the timer's hours when positive, else the manual duration (only read while stopped; logging fails otherwise); the entry is stamped now; afterwards the timer is idle |
| Timer.LoggedHoursAreRunningTime | more_featgpt.py:303-319 | from a fresh session, the hours the timer logs are exactly the time it ran, across any presses |
| Timer.LogResetsTimer | more_featgpt.py:512-515 | after a log the timer is stopped and shows 0 at any later reading |
| Dashboard.KpisOrCrash | more_featgpt.py:346 | the KPIs raise exactly on an empty table and otherwise describe it |
| Dashboard.CreateDashboard | more_featgpt.py:327-346 | the warning exactly for an empty log; an exception exactly when the log has rows but the period leaves none; otherwise the KPIs of the window |
| Dashboard.CreateDashboardUnchecked | latestapp_v2.py:156-170 | without any check: an exception exactly when the window is empty |
| Dashboard.OldEntryCrashes | more_featgpt.py:327-346 | a log whose only entry is eight days old crashes "Last 7 days" in both variants |
| Dashboard.CreateDashboardChecked | more_featgpt.py:327-346 | checking after the filter never raises: the warning exactly when the window is empty, the KPIs of the window otherwise |
| Dashboard.CheckedAgreesWhenShown | more_featgpt.py:327-346 | wherever either page as written does not raise, the checked page shows the same thing |
| Dashboard.AllTimeNeverCrashes | more_featgpt.py:331-343 | over "All time" the check before the filter suffices |

## Left out

- Spreadsheet access (`get_gsheet_credentials`, `gspread`, `get_all_records`, `append_row`): the model works on loaded rows and returns rows to append. `final_app.py`, `with_creds_file.py` and `SampleScript.py` only authenticate and append, and are not part of this model.
- Streamlit widgets and session-state plumbing, plotly figures, and display formatting (`:.1f`, `:.2f`, the `%` string of `latestapp_v2.py:384`). Also left out: the "today's schedule" view (`latestapp_v2.py:271-279`) and the single-row schedule append (`latestapp_v2.py:295`).
- `pd.to_datetime` string parsing and the pytz database. Timestamps arrive parsed. IST is the fixed offset +330 minutes, which is exact since India has no daylight saving.
- A column that mixes naive and aware values: pandas handles the column as a whole, and the model handles one value.
- Reading the clock (`time.time()`, `datetime.now`): every reading is a parameter. A page rerun triggered by a press happens at the same reading.
- Floating point: hours and seconds are exact reals.
- Seconds of timestamps: the logger writes `%H:%M:%S` (`latestapp_v2.py:455`, `more_featgpt.py:507`) and the cutoff `now − timedelta(days)` carries seconds and microseconds, while the model counts whole minutes.
- Kpis.SpanDays: with whole minutes, entries at 10:00:30 and at 10:00:10 the next day are one day apart, so the span is 2; the source's `(max − min).days + 1` on seconds gives 1.
- Filters.DashboardWindow: an entry earlier than the cutoff but in the same minute (entry 10:00:30, cutoff 10:00:45) is dropped by the source and kept by the model.
- Reconcile.CompletionRate: the rounding to 2 decimals (`.round(2)`) is not modelled; the contract states the exact rate.
- Reconcile.AnalyzeScheduleVsActual: the overall completion is stated unrounded, as for the per-row rates.
- Reconcile.OuterJoin: rows of one date stay in priority order (the merge's order). The final `sort_values('Date')` is not stable, and its order among same-date rows is not modelled; the contract promises ascending dates, as the source does, and additionally the merge order.
- The calls at `more_featgpt.py:458` and `:528` pass a `chart_key_suffix` argument that `analyze_schedule_vs_actual` does not accept. They raise before running; the model follows the definition.
- Side effects on the caller's DataFrame, such as the `Date` column `calculate_streaks` adds.
- The labels of the "Time Period" selector are its four fixed options, so `int(time_filter.split()[1])` is modelled as `Window.LastDays(7 | 30 | 90)` or `AllTime`.
- The `Timestamp` and `Date` columns are taken to be present and parsable. `load_data` skips a missing column, and the analytics would then fail on a missing key; that error path is not modelled.
- The schedule's `Time` column is carried as the `HH:MM` string `planned_time.strftime` gives; it takes no part in any computation.

## Findings

| source | as written | input that shows it | evidently intended | confidence | as-written member | corrected member |
|---|---|---|---|---|---|---|
| more_featgpt.py:327-346 | the "No data" check runs on the whole log before the period filter, and `calculate_kpis` then runs on the filtered table even when it is empty (`latestapp_v2.py:156-167` has no check at all) | one entry at 1970-01-01 00:00, "Last 7 days", now 1970-01-09 00:00: the window is empty and `idxmax` raises | warn when the filtered window is empty | not executed; high: pandas' `idxmax` of an empty series raises | Dashboard.OldEntryCrashes | Dashboard.CreateDashboardChecked |
| final_appwdb_feat.py:127-135 | Stop stores only the latest run, and each render while running overwrites the elapsed time, so a timer stopped and started again forgets the earlier runs (`latestapp_v2.py:143-151` is the same) | start at 100 s, stop at 160 s, start at 200 s, stop at 230 s: 30 s logged for 90 s of timing | accumulate every run, as `more_featgpt.py:308-316` does | not executed; medium: a single-run timer may have been meant | Timer.OverwriteLosesEarlierRuns | Timer.ShownCountsRunningTime |
| latestapp_v2.py:47-52 | naive timestamps are localised as UTC and converted to IST, but the logger writes the IST wall clock without a zone (`latestapp_v2.py:455`), so every entry moves 5 h 30 min later | an entry logged at 2025-01-01 19:00 is read as 2025-01-02 00:30 and counted on the wrong date by streaks, KPIs and plan against actual | localise naive timestamps as IST, as `more_featgpt.py:51` does | not executed; high | TimeZone.LoadMovesEveningEntry | TimeZone.LoggedWallClockRoundTrip |
