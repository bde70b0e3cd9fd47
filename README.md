# Flow / TomatoClock Pomodoro core in Dafny

This project models the logic behind two versions of a macOS menu-bar Pomodoro timer: Flow
and the older TomatoClock. It covers four parts:

- **The `TimerManager` state machine.** There are three modes (Focus, Short Break, Long
  Break) and three states (idle, running, paused).
  - Its commands are start, pause, reset, skip, set mode, tick and session completion.
  - Its persistence is the session history and the three durations in minutes.
  - Flow moves on to a break by itself. TomatoClock only records the session and resets.
- **The history aggregation of the contribution graph.** It builds a 7-day by 3-part-of-day
  grid of session counts and durations. Around it are:
  - `TimeOfDay.from`, `dateFor`, `countFor`, `statFor`, and the colour step of a cell as a
    level;
  - the week total with its inclusive 23:59:59 bound, and the text it shows;
  - week navigation.
- **The buttons of the main view.** These are Start/Pause and Skip.
- **The report screen.** It has:
  - the sessions of a day, their total and average as text;
  - the 24 hourly counts;
  - the per-tag breakdown, and the week selector.

## How the model is organised

Time is whole seconds since a reference midnight. A day is 86 400 seconds, and every command
that reads the clock takes `now` as a parameter. The modules are:

- `Wrappers`: `Option`.
- `Format`: Swift's truncating `/` and `%`, hours and minutes, integer-to-text, and
  `"%02d:%02d"`.
- `Calendar`: hours, days, adding days and moving weeks.
- `Sessions`: `FocusSession`, the six-tag catalog, `filter` and the duration total.
- `TimerModel`: modes, states, durations and how stored durations are loaded.
- `FlowTimer` and `TomatoTimer`: each `TimerManager` as a class whose methods change its
  fields in place.
  - A ghost `Snapshot()` of every field lets each method state its whole new state.
  - That state is given through a specification function (`Cleared`, `Restarted`,
    `Completed`).
  - `FlowTimerProperties` and `TomatoTimerProperties` hold lemmas and scenario methods over
    those functions.
- `Aggregation`: the grid and week-window definitions shared by both graph views.
- `FlowGraph` and `TomatoGraph`: `calculateGridData` as a loop over the week's sessions, with
  invariants tying it to the grid functions.
- `FlowContent`, `TomatoContent`: the main-view computed properties and buttons.
- `Report`: the report screen.

The store behind `UserDefaults` is modelled as fields of the timer:

- `storedHistory` is the stored session list, `None` when the key is missing or does not
  decode.
- `stored` holds the three duration keys. A missing key reads as 0, as `integer(forKey:)`
  does.

The 0.1 s tick subscription is the flag `ticking`. `UUID()` is a counter `nextId` that is
fresh with respect to every session held. The notifications sent are the ghost field
`finished`.

**What the code does**, where it is easy to read it otherwise:

- The break parity tests the counter *after* the increment. So the first completed focus
  period leads to a Short Break and the second to a Long Break (`FlowTimer.NextBreak`).
- Every duration assignment runs `saveDurations()`, and it resets the timer whenever the
  state is idle, whichever duration changed. The comment at
  Sources/Flow/Models/TimerManager.swift:85 says the remaining time is updated only when the
  modified duration matches the current mode; the code that follows it does not test the
  mode.
- Loading the stored durations at start-up goes through the same setters, so it loses the
  stored break durations (see Findings). Both classes model this loading as written.
- Only loading ignores values of 0 or below. The setters accept any integer.
- `progress` is not clamped. A tick whose remaining time exceeds the duration gives a value
  above 1, and a zero duration gives infinity (`TimerModel.Fraction`).

## Model

| member | source | states |
|---|---|---|
| TimerModel.Fraction | Sources/Flow/Models/TimerManager.swift:151-153 | `remaining / currentDuration()` is infinite exactly for a zero duration. It lies in (0, 1] while the remaining time is within the duration, is above 1 when it exceeds it, and is negative for a negative duration. |
| TimerModel.WithMinutes | Sources/Flow/Models/TimerManager.swift:25-33 | Assigning a duration property changes that mode's minutes and no other mode's. |
| TimerModel.Load | Sources/Flow/Models/TimerManager.swift:69-78 | Loading (corrected, see Findings) takes each stored value that is positive and keeps the current value for every other mode. |
| TimerModel.LoadRestoresSaved | Sources/Flow/Models/TimerManager.swift:69-89 | Three positive saved durations come back unchanged on the next launch. |
| TimerModel.LoadIgnoresNonPositive | Sources/TomatoClock/Models/TimerManager.swift:106-115 | A missing or non-positive stored value never replaces a duration. |
| TimerModel.LoadAsWrittenDropsBreaks | Sources/Flow/Models/TimerManager.swift:69-89 | As written, a positive stored focus value makes the loader read back the current break durations instead of the stored ones. |
| TimerModel.LoadAsWrittenCounterexample | Sources/TomatoClock/Models/TimerManager.swift:106-126 | Stored (50, 10, 20) loads as (50, 5, 15) as written and as (50, 10, 20) when corrected. |
| FlowTimer.NextBreak | Sources/Flow/Models/TimerManager.swift:169-179 | The break after the n-th completed focus period is never Focus, and it is Long Break exactly when n is even. |
| FlowTimer.TimerManager.constructor | Sources/Flow/Models/TimerManager.swift:56-60 | `init` starts idle in Focus with the stored history (or none). The durations and the store are what `loadDurations()` as written leaves (`TimerModel.LoadAsWritten`), so stored 50/10/20 gives 50/5/15. The timer shows the full focus duration. |
| FlowTimer.TimerManager.DurationFor | Sources/Flow/Models/TimerManager.swift:91-97 | `duration(for:)` is the mode's configured minutes in whole seconds. |
| FlowTimer.TimerManager.CurrentDuration | Sources/Flow/Models/TimerManager.swift:99-101 | `currentDuration()` is the current mode's configured minutes in whole seconds. |
| FlowTimer.TimerManager.FormattedTime | Sources/Flow/Models/TimerManager.swift:39-43 | A non-negative remaining time reads back from the text as itself. A negative one shows its minutes and seconds each with a minus sign, as `%02d` of the truncated parts gives. |
| FlowTimer.TimerManager.LoadHistory | Sources/Flow/Models/TimerManager.swift:62-67 | A stored list replaces the history. A missing or undecodable one changes nothing. |
| FlowTimer.TimerManager.LoadDurations | Sources/Flow/Models/TimerManager.swift:69-89 | Each key is read just before its assignment, after the previous setter has rewritten the store: the new durations and store are `TimerModel.LoadAsWritten` of the old ones. An idle timer is reset to the new duration. |
| FlowTimer.TimerManager.SetDuration | Sources/Flow/Models/TimerManager.swift:25-33 | A setter changes one duration and runs `saveDurations()`. |
| FlowTimer.TimerManager.SaveDurations | Sources/Flow/Models/TimerManager.swift:80-89 | The three durations are stored. An idle timer is reset, whatever its mode. Nothing else changes. |
| FlowTimer.TimerManager.Start | Sources/Flow/Models/TimerManager.swift:103-114 | A no-op while running. Otherwise the timer runs with end date `now + timeRemaining` and a live tick, keeping the invariant. |
| FlowTimer.TimerManager.Pause | Sources/Flow/Models/TimerManager.swift:116-121 | Only a running timer pauses. The tick stops and the remaining time is kept. |
| FlowTimer.TimerManager.Reset | Sources/Flow/Models/TimerManager.swift:123-129 | From any state: idle, the full duration of the mode, progress 1, no end date, no tick. |
| FlowTimer.TimerManager.Skip | Sources/Flow/Models/TimerManager.swift:131-138 | Skipping Focus resets it. Skipping a break starts a whole focus period at `now`. |
| FlowTimer.TimerManager.SetMode | Sources/Flow/Models/TimerManager.swift:140-143 | The mode changes and the timer is reset to that mode's duration. |
| FlowTimer.TimerManager.SelectTag | Sources/Flow/Views/ContentView.swift:120-130 | Choosing a tag from the menu changes only the selected tag. |
| FlowTimer.TimerManager.Tick | Sources/Flow/Models/TimerManager.swift:145-155 | With time left the remaining time and progress are refreshed. At or after the end date the period completes. |
| FlowTimer.TimerManager.SaveSession | Sources/Flow/Models/TimerManager.swift:157-167 | In Focus exactly one session is appended, with the focus duration, the selected tag and a fresh identifier, and the whole list is stored. In a break nothing changes. |
| FlowTimer.TimerManager.CompleteTimer | Sources/Flow/Models/TimerManager.swift:169-184 | The new state is `Completed` of the old one: the tick is cancelled, a focus period is saved and counted, and the next mode is started. |
| FlowTimer.TimerManager.Transition | Sources/Flow/Models/TimerManager.swift:186-192 | Sets the mode and resets. With auto-start, it runs the whole new period from `now`. |
| FlowTimerProperties.ResetIdempotent | Sources/Flow/Models/TimerManager.swift:123-129 | Reset twice equals reset once, and it keeps the mode and the history. |
| FlowTimerProperties.FocusCompletion | Sources/Flow/Models/TimerManager.swift:169-179 | Ending a focus period appends one session (date `now`, focus duration, selected tag, an identifier no earlier session has) and stores the list. It increments the count, picks the break by the new count's parity, and runs that break in full. |
| FlowTimerProperties.BreakCompletion | Sources/Flow/Models/TimerManager.swift:180-183 | Ending a break records nothing and runs a whole focus period. |
| FlowTimerProperties.BreakOrder | Sources/Flow/Models/TimerManager.swift:176 | The first completed focus period leads to a Short Break and the second to a Long Break. Consecutive counts alternate. |
| FlowTimerProperties.PauseThenResume | Sources/Flow/Models/TimerManager.swift:103-121 | Pause then start resumes with the remaining time frozen at the pause. |
| FlowTimerProperties.StartTwice | Sources/Flow/Models/TimerManager.swift:103-105 | A second start leaves the end date of the first. |
| FlowTimerProperties.OneFocusPeriod | Sources/Flow/Models/TimerManager.swift:56-184 | A fresh timer run for 25 minutes holds one 1500-second "Dev" session and runs a 5-minute short break. |
| FlowTimerProperties.RelaunchLosesBreaks | Sources/Flow/Models/TimerManager.swift:56-89 | A timer started over a store holding 50/10/20 runs with 50/5/15 and stores 50/5/15. |
| FlowTimerProperties.FocusBreakFocus | Sources/Flow/Models/TimerManager.swift:145-192 | Focus, short break, focus: two 1500-second sessions with identifiers 0 and 1, and a running 900-second long break. |
| TomatoTimer.TimerManager.constructor | Sources/TomatoClock/Models/TimerManager.swift:55-60 | `init` starts idle in Focus with the stored history (mock data left out). The durations and the store are what `loadDurations()` as written leaves (`TimerModel.LoadAsWritten`). |
| TomatoTimer.TimerManager.CurrentDuration | Sources/TomatoClock/Models/TimerManager.swift:128-134 | `currentDuration()` is the current mode's configured minutes in whole seconds. |
| TomatoTimer.TimerManager.FormattedTime | Sources/TomatoClock/Models/TimerManager.swift:38-42 | A non-negative remaining time reads back from the text as itself. A negative one shows its minutes and seconds each with a minus sign. |
| TomatoTimer.TimerManager.LoadHistory | Sources/TomatoClock/Models/TimerManager.swift:99-104 | A stored list replaces the history. Otherwise nothing changes. |
| TomatoTimer.TimerManager.LoadDurations | Sources/TomatoClock/Models/TimerManager.swift:106-126 | Each key is read just before its assignment, after the previous setter has rewritten the store: the new durations and store are `TimerModel.LoadAsWritten` of the old ones. |
| TomatoTimer.TimerManager.SetDuration | Sources/TomatoClock/Models/TimerManager.swift:25-33 | A setter changes one duration and runs `saveDurations()`. |
| TomatoTimer.TimerManager.SaveDurations | Sources/TomatoClock/Models/TimerManager.swift:117-126 | The three durations are stored, and an idle timer is reset. |
| TomatoTimer.TimerManager.Start | Sources/TomatoClock/Models/TimerManager.swift:136-147 | A no-op while running. Otherwise the timer runs towards `now + timeRemaining`. |
| TomatoTimer.TimerManager.Pause | Sources/TomatoClock/Models/TimerManager.swift:149-154 | Only a running timer pauses. |
| TomatoTimer.TimerManager.Reset | Sources/TomatoClock/Models/TimerManager.swift:156-161 | Idle, full duration, progress 1, no tick. The end date is left as it was. |
| TomatoTimer.TimerManager.Skip | Sources/TomatoClock/Models/TimerManager.swift:163-166 | Skip is a reset, in every mode. |
| TomatoTimer.TimerManager.SetMode | Sources/TomatoClock/Models/TimerManager.swift:168-171 | The mode changes and the timer is reset. |
| TomatoTimer.TimerManager.SelectTag | Sources/TomatoClock/Views/ContentView.swift:120-130 | Choosing a tag from the menu changes only the selected tag. |
| TomatoTimer.TimerManager.Tick | Sources/TomatoClock/Models/TimerManager.swift:173-183 | With time left the remaining time and progress are refreshed. Otherwise the period completes. |
| TomatoTimer.TimerManager.SaveSession | Sources/TomatoClock/Models/TimerManager.swift:185-195 | In Focus one session is appended and the list stored. Otherwise nothing changes. |
| TomatoTimer.TimerManager.CompleteTimer | Sources/TomatoClock/Models/TimerManager.swift:197-203 | Save, reset, notify: the new state is `Completed` of the old one. |
| TomatoTimerProperties.ResetIdempotent | Sources/TomatoClock/Models/TimerManager.swift:156-161 | Reset twice equals reset once, and it keeps the mode and the history. |
| TomatoTimerProperties.CompletionStaysInMode | Sources/TomatoClock/Models/TimerManager.swift:197-203 | Completion stays in the same mode, idle and full. A focus period appends exactly one session with a fresh identifier, and a break appends none. |
| TomatoTimerProperties.PauseThenResume | Sources/TomatoClock/Models/TimerManager.swift:136-154 | Pause then start resumes with the remaining time frozen at the pause. |
| TomatoTimerProperties.OneFocusPeriod | Sources/TomatoClock/Models/TimerManager.swift:55-203 | A fresh timer run for 25 minutes holds one 1500-second "Dev" session and is idle in Focus at 25:00 again. |
| TomatoTimerProperties.RelaunchLosesBreaks | Sources/TomatoClock/Models/TimerManager.swift:55-126 | A timer started over a store holding 50/10/20 runs with 50/5/15 and stores 50/5/15. |
| TomatoTimerProperties.NegativeDurationShown | Sources/TomatoClock/Views/SettingsView.swift:20-32 | A focus duration of -5 entered in the settings of an idle timer leaves it at -300 seconds, shown as "-5:00". |
| Format.ClockRoundTrip | Sources/Flow/Models/TimerManager.swift:39-43 | `formattedTime` reads back as the number of seconds it was made from, with seconds below 60 and at least two minute digits. |
| Format.ClockNegative | Sources/Flow/Models/TimerManager.swift:39-43 | A negative time shows the whole minutes and leftover seconds of its magnitude, each `"00"` when zero and otherwise with a minus sign. |
| Format.ClockNegativeExamples | Sources/TomatoClock/Models/TimerManager.swift:38-42 | -300 seconds shows "-5:00" and -5 seconds shows "00:-5". |
| Format.Quot | Sources/TomatoClock/Models/TimerManager.swift:38-42 | Swift's `/` truncates toward zero: the remainder has the sign of the dividend and is smaller than the divisor. |
| Format.Rem | Sources/TomatoClock/Models/TimerManager.swift:38-42 | Swift's `%`: `a == b * (a / b) + a % b`, with the remainder taking the sign of `a`. |
| Format.HoursMinutesBounds | Sources/Flow/Views/ContentView.swift:367-373 | For a non-negative total, the minutes are below 60 and the pair gives the whole minutes of the total. |
| Format.HoursMinutesCases | Sources/TomatoClock/Views/ReportView.swift:53-54 | The hours and minutes of a total: (0, whole minutes) below an hour; at least one hour and minutes below 60 that bracket the total from an hour on; for a negative total, no positive hours and minutes in (-60, 0]. |
| Format.HoursMinutesNegative | Sources/TomatoClock/Views/ContentView.swift:304-305 | For a negative total, the truncated hours are not positive and the minutes lie in (-60, 0]. |
| Format.RoundedSeconds | Sources/Flow/Views/ContentView.swift:369 | `max(0, Int(x.rounded()))` is 0 for negatives and within half a second of `x` otherwise. |
| Format.IntString | Sources/Flow/Views/ContributionGraphView.swift:239-245 | String interpolation of an integer: its digits read back as the number, with a minus sign for negatives. |
| Format.Pad2 | Sources/Flow/Models/TimerManager.swift:42 | `%02d`: at least two digits that read back as the number, exactly two below 100. |
| Calendar.HourOf | Sources/TomatoClock/Views/ReportView.swift:145 | The hour component is in 0..23 and locates the date within its day. |
| Calendar.StartOfDay | Sources/Flow/Views/ContributionGraphView.swift:228 | `startOfDay` is a midnight at or before the date, less than a day earlier. |
| Calendar.DaysBetween | Sources/Flow/Views/ContributionGraphView.swift:120-121 | `dateComponents([.day], from:to:).day`: for a later date, the number of whole days such that the date lies in that day after the start. |
| Calendar.EndOfDay | Sources/Flow/Views/ContentView.swift:316-318 | `bySettingHour: 23, minute: 59, second: 59` gives the last second of the same day. |
| Calendar.MoveWeek | Sources/Flow/Views/ContentView.swift:291-297 | Moving by n weeks moves by 7n days and keeps a midnight start a midnight. |
| Calendar.MoveWeekInverse | Sources/TomatoClock/Views/ContentView.swift:274-280 | Two moves add up to one move by the sum, so moving back by the same number of weeks returns to the same week start. |
| Sessions.CatalogShape | Sources/Flow/Models/FocusSession.swift:16-23 | The catalog is the six tags Dev, Reading, Meeting, Design, Writing, Other, with distinct names. |
| Sessions.DefaultTag | Sources/Flow/Models/TimerManager.swift:54 | `Tag.defaults.first!` is in the catalog and is "Dev". |
| Sessions.FreshId | Sources/Flow/Models/FocusSession.swift:4-9 | The identifier given to a new session differs from every identifier held. |
| Sessions.FilterMembers | Sources/TomatoClock/Views/ReportView.swift:47-49 | `filter` keeps exactly the sessions its predicate accepts. |
| Sessions.FilterAppend | Sources/TomatoClock/Views/ReportView.swift:47-49 | `filter` distributes over concatenation, so kept sessions keep their order. |
| Sessions.FilterFilter | Sources/Flow/Views/ContributionGraphView.swift:116-126 | Filtering the week's sessions again by cell equals filtering the history by cell. |
| Sessions.FilterCountSplit | Sources/TomatoClock/Views/ReportView.swift:159-161 | Two exclusive predicates that together make up a third keep as many sessions as the third keeps. |
| Sessions.TotalDuration | Sources/TomatoClock/Views/ReportView.swift:52 | With no negative duration, the `reduce` total is not negative and is at least every duration it adds. |
| Sessions.TotalDurationSnoc | Sources/TomatoClock/Views/ReportView.swift:52 | `reduce(0) { $0 + $1.duration }` grows by the duration of an appended session. |
| Aggregation.TimeOfDayFrom | Sources/Flow/Views/ContributionGraphView.swift:150-157 | Hours 5-11 are morning, 12-17 afternoon, and every other hour is evening, both directions. |
| Aggregation.TimeOfDayIsDaily | Sources/TomatoClock/Views/ContributionGraphView.swift:111-118 | The part of the day does not depend on which day it is. |
| Aggregation.RawValueRoundTrip | Sources/Flow/Views/ContributionGraphView.swift:137-148 | Row index and `TimeOfDay` convert back and forth. |
| Aggregation.WindowSessions | Sources/Flow/Views/ContributionGraphView.swift:114-116 | `relevantSessions` are exactly the sessions in the 7-day window from the start. |
| Aggregation.WindowColumn | Sources/Flow/Views/ContributionGraphView.swift:120-121 | A session in the window lands in a column index 0..6. |
| Aggregation.EmptyHistoryGrid | Sources/Flow/Views/ContributionGraphView.swift:16-17 | Without sessions both grids are all zeros. |
| Aggregation.GridStep | Sources/Flow/Views/ContributionGraphView.swift:118-127 | One more session in the window bumps its cell by one count and by its duration. Outside the window nothing changes. |
| Aggregation.CountGridStep | Sources/TomatoClock/Views/ContributionGraphView.swift:85-93 | The count grid's one-session step. |
| Aggregation.CountTotal | Sources/TomatoClock/Views/ContributionGraphView.swift:75-96 | The counts of the grid add up to the number of sessions in the window. |
| Aggregation.DurationTotal | Sources/Flow/Views/ContributionGraphView.swift:107-135 | The durations of the grid add up to the total duration of the window's sessions. |
| Aggregation.WindowGrid | Sources/Flow/Views/ContributionGraphView.swift:113-127 | Pre-filtering to the window does not change either grid. |
| Aggregation.CellStep | Sources/Flow/Views/ContributionGraphView.swift:118-126 | A cell's count and duration grow exactly by a session that lands in it. |
| Aggregation.BumpSum | Sources/Flow/Views/ContributionGraphView.swift:124-125 | `grid[col][row] += amount` adds `amount` to the grid's total. |
| Aggregation.DateFor | Sources/Flow/Views/ContributionGraphView.swift:160-163 | `dateFor(column)` is `column` days after the week start and a midnight when the start is. |
| Aggregation.CountFor | Sources/TomatoClock/Views/ContributionGraphView.swift:126-132 | `countFor` counts sessions of the history only. |
| Aggregation.ColumnIsDay | Sources/Flow/Views/ContributionGraphView.swift:160-172 | From a midnight start, a date lies in column `col` of the window exactly when it is on the same day as `dateFor(col)`. |
| Aggregation.CountForMatchesGrid | Sources/Flow/Views/ContributionGraphView.swift:166-172 | `countFor(dateFor(col), timeOfDay)` equals the grid's count for that cell. |
| Aggregation.Level | Sources/Flow/Views/ContributionGraphView.swift:182-187 | `colorFor` as a level: 0 for no sessions, 1 for one, 2 for two or three, 3 for four or more. Every case is an if-and-only-if. |
| Aggregation.LevelMonotone | Sources/TomatoClock/Views/ContributionGraphView.swift:134-139 | More sessions never give a lighter cell. |
| Aggregation.WeekTotal | Sources/Flow/Views/ContentView.swift:313-325 | A week without sessions totals 0. When no session of the week has a negative duration, the total is not negative and is at least the duration of each of them; sessions outside the week do not matter. |
| Aggregation.WeekBoundary | Sources/Flow/Views/ContentView.swift:313-325 | From a midnight start, the week ends at 23:59:59 of its seventh day. That second is in the week, the next midnight is not, and the inclusive week equals the grid's window. |
| Aggregation.WeekTotalMatchesGrid | Sources/TomatoClock/Views/ContentView.swift:292-303 | The week's total duration equals the sum of the duration grid. |
| FlowGraph.CalculateGridData | Sources/Flow/Views/ContributionGraphView.swift:107-135 | The loop produces exactly the count grid and the duration grid of the history for the week. |
| FlowGraph.StatFor | Sources/Flow/Views/ContributionGraphView.swift:174-180 | `statFor` reports the cell's date, part of day, count and duration. |
| FlowGraph.StatForCell | Sources/Flow/Views/ContributionGraphView.swift:221-236 | A cell's summary counts exactly the sessions that land in it and sums their durations. From a midnight start it agrees with `countFor`. |
| FlowGraph.HoursMinutesText | Sources/Flow/Views/ContributionGraphView.swift:244 | `"\(hours)h \(minutes)m"` reads back as the two numbers when neither is negative. |
| FlowGraph.FocusTimeString | Sources/Flow/Views/ContributionGraphView.swift:239-245 | The text is the whole hours and leftover minutes of the rounded, clamped seconds: "0h 0m" below half a second. |
| TomatoGraph.CalculateGridData | Sources/TomatoClock/Views/ContributionGraphView.swift:75-96 | The loop produces exactly the count grid, and its cells add up to the number of sessions in the week. |
| FlowContent.ComponentsOf | Sources/Flow/Views/ContentView.swift:367-373 | `focusTimeComponents`: non-negative hours and minutes below 60 that bracket the rounded seconds. Below half a second it is (0, 0). |
| FlowContent.TooltipMatchesDisplay | Sources/Flow/Views/ContributionGraphView.swift:239-245 | The tooltip text and the header components show the same hours and minutes. |
| FlowContent.WholeSecondsComponents | Sources/Flow/Views/ContentView.swift:367-373 | For whole seconds the components are the whole minutes of the total. |
| FlowContent.DisplayedDuration | Sources/Flow/Views/ContentView.swift:309-311 | The hovered cell's duration when there is one, otherwise the week total. |
| FlowContent.DisplayedDurationMatchesGrid | Sources/Flow/Views/ContentView.swift:309-325 | Not hovering shows the sum of the duration grid. Hovering shows the total of the cell's sessions. |
| FlowContent.MainButton | Sources/Flow/Views/ContentView.swift:166-171 | The button toggles between running and not running: pause when running, start otherwise. |
| FlowContent.SkipOffered | Sources/Flow/Views/ContentView.swift:187 | The Skip button is shown exactly in a short or a long break. |
| FlowContent.SkipButton | Sources/Flow/Views/ContentView.swift:187-201 | Offered only in a break, it starts a full focus period and leaves the history, the count and the durations alone. |
| TomatoContent.TotalFocusTime | Sources/TomatoClock/Views/ContentView.swift:292-307 | The text gives the hours and minutes of the week's total, which bracket the total when it is non-negative. |
| TomatoContent.TruncationAgreesOnWholeSeconds | Sources/TomatoClock/Views/ContentView.swift:304-306 | On whole seconds the truncating text equals the rounding text of the newer version. |
| TomatoContent.MainButton | Sources/TomatoClock/Views/ContentView.swift:168-173 | The button toggles between running and not running. |
| Report.DailySessions | Sources/TomatoClock/Views/ReportView.swift:47-49 | Exactly the sessions on the selected day. |
| Report.DailySessionsInOrder | Sources/TomatoClock/Views/ReportView.swift:47-49 | The day's sessions keep history order, and an appended session joins the day's list when it is on that day. |
| Report.FormattedTotalDuration | Sources/TomatoClock/Views/ReportView.swift:51-57 | Below one hour the text is the day's whole minutes. From one hour on it is the whole hours (at least 1) and the minutes below 60 that bracket the total. A negative total shows only its leftover minutes, in (-60, 0]. |
| Report.FormattedAverageDuration | Sources/TomatoClock/Views/ReportView.swift:59-64 | "0" for an empty day. Otherwise, when no session of that day has a negative duration (other days do not matter), the whole minutes of the mean session: the total divided by 60 times the count, rounded down, bracketing the total. |
| Report.MeanMinutes | Sources/TomatoClock/Views/ReportView.swift:62 | With no negative duration, the two truncating divisions equal one division by 60 times the count. |
| Report.WholeMinutesOfMean | Sources/TomatoClock/Views/ReportView.swift:62 | The number bracketed by the count's minutes multiples of the total is that one division. |
| Report.AverageIsWholeMinutesOfMean | Sources/TomatoClock/Views/ReportView.swift:62 | For a non-negative total, the average is the whole minutes of the mean: `60·avg·count <= total < 60·(avg+1)·count`. |
| Report.HourlyCounts | Sources/TomatoClock/Views/ReportView.swift:143-150 | The chart has 24 bars. |
| Report.HourlyCountsEmpty | Sources/TomatoClock/Views/ReportView.swift:143-150 | Without sessions all 24 bars are 0; with `HourlyStep` this fixes the value of every bar. |
| Report.HourlyStep | Sources/TomatoClock/Views/ReportView.swift:144-145 | A new session raises exactly the bar of its hour by one. |
| Report.HourlyTotal | Sources/TomatoClock/Views/ReportView.swift:143-150 | The 24 bars add up to the number of sessions. |
| Report.TagCount | Sources/TomatoClock/Views/ReportView.swift:160 | A tag's count is at most the number of sessions. |
| Report.TagRowsCounts | Sources/TomatoClock/Views/ReportView.swift:159-176 | Each row names a catalog tag with its positive number of sessions. |
| Report.TagRowsOrdered | Sources/TomatoClock/Views/ReportView.swift:159 | The rows are in catalog order. |
| Report.TagRows | Sources/TomatoClock/Views/ReportView.swift:155-176 | One row per catalog tag with sessions, in catalog order, each with its tag's positive number of sessions; no catalog tag with sessions is missing. |
| Report.TagRowsComplete | Sources/TomatoClock/Views/ReportView.swift:159-161 | Every tag that has sessions has a row. |
| Report.BarFraction | Sources/TomatoClock/Views/ReportView.swift:170 | The bar is proportional to its count: share × number of sessions = count. A bar for between one and all of the sessions is a share in (0, 1], and 1 for all of them. |
| Report.BarFractionBounds | Sources/TomatoClock/Views/ReportView.swift:170 | Every bar is a share in (0, 1] of the listed sessions. |
| Report.RowsCountTaggedSessions | Sources/TomatoClock/Views/ReportView.swift:159-176 | For tags with distinct names, the rows' counts add up to the number of sessions whose tag is one of those names. |
| Report.TagRowsTotal | Sources/TomatoClock/Views/ReportView.swift:159-176 | The breakdown's counts add up to the number of sessions tagged with a catalog name. |
| Report.WeekSelectorDays | Sources/TomatoClock/Views/ReportView.swift:78-80 | Seven consecutive days centred on today. |
| Report.AtMostOneSelected | Sources/TomatoClock/Views/ReportView.swift:78-80 | The seven days are distinct days, so at most one is highlighted as selected. |

## Left out

- SwiftUI layout, colours, animations, hover tracking and `DateFormatter` strings (day names, long dates, the `Skip <mode>` label).
- The Combine timer is only the `ticking` flag; ticks are explicit calls with the current time. `tick()`'s `guard let endDate` cannot fail while running, so `Tick` requires the running state.
- Notifications, `NSSound`, the notification permission request, and the menu-bar manager. A notification is recorded only as the mode in the ghost `finished`.
- JSON encoding and decoding: a stored history is either a list or `None` (missing or undecodable).
- `generateMockData()` in TomatoClock's `init`: the model starts from the stored history only.
- Time zones and daylight saving time: every day has 86 400 seconds and the calendar is UTC.
- Sub-second dates: dates and durations are whole seconds. With fractional seconds, a session after 23:59:59 and before midnight would fall outside the inclusive week total but inside the grid's half-open window. With whole seconds the two agree (`Aggregation.WeekBoundary`).
- Int overflow and Double precision: integers are unbounded and durations are whole seconds.
- The `TimerMode` raw strings, the `Tag` UUID and the tag colour values; a tag is its name and a colour name.
- `hoveredSummary` updates triggered from `calculateGridData` and the other view-state bookkeeping.
- Report.FormattedAverageDuration: for a day that holds a session of negative duration, the contract says nothing about the text, because the truncating divisions then no longer give the whole minutes of the mean.
- FlowTimer.TimerManager.Tick, TomatoTimer.TimerManager.Tick: `remaining` is whole seconds, so the fraction shown while running is a ratio of integers rather than of sub-second intervals.

## Findings

| source | as written | input that shows it | evidently intended | confidence | as-written member | corrected member |
|---|---|---|---|---|---|---|
| Sources/Flow/Models/TimerManager.swift:69-89 (the same code is at Sources/TomatoClock/Models/TimerManager.swift:106-126) | `loadDurations` reads each key just before assigning it. The first assignment runs `didSet` → `saveDurations()`, which rewrites all three keys with the current values, so the later reads see the defaults. | stored focus 50, short break 10, long break 20 with defaults 25/5/15: the durations load as 50/5/15 and the store is overwritten with 50/5/15 | all three stored values are restored (50/10/20) | high, not executed | TimerModel.LoadAsWritten (shown by TimerModel.LoadAsWrittenCounterexample and TimerModel.LoadAsWrittenDropsBreaks; the classes' `LoadDurations` follow it, see FlowTimerProperties.RelaunchLosesBreaks) | TimerModel.Load (TimerModel.LoadRestoresSaved) |
