# Athlete stopwatch and interval timer: the timing engine

A model, in Dafny, of the timing logic of the STOP-TIME athlete stopwatch: a
single React component (`src/App.jsx`) holding two independent engines.

- **Stopwatch.** A 10 ms interval adds 10 ms to `time` while running. LAP
  records the current time as a lap and the time since the previous lap as its
  split. RESET saves a session that had laps to the workout history (newest
  first, ten kept) and clears the stopwatch. A saved session can be loaded back,
  its splits recomputed from its laps. Best, worst and average split are
  derived, and the lap list marks every lap whose split equals the best or the
  worst.
- **Countdown.** A set length configured from minutes and seconds (or a preset)
  counts down by 10 ms per interval firing. At 10 ms or less the set completes:
  the time is clamped to 0, the timer stops, the alarm and a vibration pattern
  are requested, the set is counted, and, while sets remain, a restart is armed
  that refills the set and starts again 2 s later.
- **Displays.** `HH:MM:SS.CC` / `MM:SS.CC` for the stopwatch, `MM:SS` for the
  countdown, and the CSV text of the lap export.

The component's state is modelled as two classes, `StopwatchEngine.Stopwatch`
and `CountdownEngine.Countdown`, whose fields are the component's state
variables and whose methods are its handlers and interval callbacks. The
expression-only helpers (formatting, lap statistics, split recomputation, input
clamps) are functions in their own modules. `Scenarios` drives both engines
through whole sessions.

Two timer primitives become explicit calls: each firing of an interval is a
`Tick()` (and `Advance(n)` is `n` firings of the stopwatch's), and the firing
of an armed 2 s restart is `RestRestart()`. Sounds and vibrations are returned
as `Feedback.Event` tags. Timestamps are a `date` parameter. A user's
confirmation is a `confirmed` parameter. Typed input reaches the model already
parsed, as `Option<int>`, with `None` for NaN.

Behaviour the model keeps as the code has it:

- `isPaused` is always equal to `isRunning`, because start/stop sets both from
  the same value. So the RESUME caption is never shown (`ResumeNeverShown`).
- Laps are non-decreasing, not strictly increasing. Two laps within one tick
  are equal and give a split of 0.
- Loading a saved session does not stop a running stopwatch.
- The average split is the exact quotient `Ratio(total, count)`. Nothing is
  rounded.
- A countdown whose final set has run out can be started again, since START is
  disabled only for a zero set length. The next tick completes another set, so
  `completedSets` can exceed `targetSets` (`SetBeyondTarget`).
- Armed restarts are never cancelled. RESET, SET and the presets leave them
  pending.
- The minutes input is clamped only below, at 0. The seconds input is clamped
  to [0, 59] and the sets stepper to [1, 99].

## Model

| member | source | states |
|---|---|---|
| Digits.Decimal | src/App.jsx:149 | `String(n)`: only digits, at least one, a single digit exactly below 10, no leading zero except for 0 itself; `ValueOfDecimal` reads it back as `n` |
| Digits.DecimalOfValue | src/App.jsx:149 | every numeral without leading zeros is `String` of its own value, so `String(n)` is the only such numeral for `n` |
| Digits.Pad2 | src/App.jsx:147-163 | `padStart(2, '0')` gives at least two digits, exactly two for values below 100, and no leading zero when there are more |
| Digits.PadOfValue | src/App.jsx:147-163 | every digit string of two or more digits, with a leading zero only when it has exactly two, is the padded numeral of its own value |
| Digits.ValueOfPad2 | src/App.jsx:147-163 | a padded numeral reads back as the number it was written from |
| Digits.Join | src/App.jsx:282 | `parts.join(sep)`; `SplitJoin` splits the joined text back into exactly the parts when none contains the separator |
| Digits.SplitJoin | src/App.jsx:282 | joining one or more parts that do not contain the separator and splitting on it gives back exactly those parts |
| TimeFormat.FormatTime | src/App.jsx:140-156 | the stopwatch display; `FormatTimeRoundTrip` reads it back as its fields and `ReadClockCanonical` shows no other text reads so (every field two digits or more, hours without surplus zeros), `FormatTimeInjective` shows it distinguishes every centisecond, `HoursFieldShown` and `DropCentiseconds` give its shape |
| TimeFormat.ClockText | src/App.jsx:147-155 | the four branches of the display on given fields; `ClockTextRoundTrip` reads them back, `ReadClockCanonical` shows it is the only text that does |
| TimeFormat.FormatTimerTime | src/App.jsx:158-164 | the countdown display; `FormatTimerTimeRoundTrip` reads it back as the whole seconds remaining, `ReadTimerTimeCanonical` shows it is the only text that does (two-digit seconds below 60, minutes of two digits or more) |
| TimeFormat.ClockOf | src/App.jsx:141-145 | minutes and seconds below 60 and centiseconds below 100; hours positive iff ms ≥ 3 600 000; the fields recompose `ms / 10` exactly |
| TimeFormat.FormatTimeRoundTrip | src/App.jsx:140-156 | the display with centiseconds reads back as exactly the hours, minutes, seconds and centiseconds of `ms`, for any number of hour digits |
| TimeFormat.ClockTextRoundTrip | src/App.jsx:147-155 | the `[HH:]MM:SS.CC` text of any fields with minutes and seconds below 60 and centiseconds below 100 reads back as exactly those fields |
| TimeFormat.ReadClockCanonical | src/App.jsx:147-155 | any text that reads as some fields is exactly the display of those fields with centiseconds: hours, when shown, are non-zero and padded to two digits, the other fields have exactly two |
| TimeFormat.MinutesOnCanonical | src/App.jsx:153-155 | the only eight characters that read as minutes, seconds and centiseconds are the three padded fields with `:` and `.` |
| TimeFormat.FormatTimeInjective | src/App.jsx:140-156 | two instants give the same display iff they agree to the centisecond |
| TimeFormat.DropCentiseconds | src/App.jsx:147-155 | `includeMs = false` drops exactly the `.CC` suffix |
| TimeFormat.HoursFieldShown | src/App.jsx:147-155 | the `HH:` field appears iff ms ≥ 3 600 000 (two colons then, one otherwise) |
| TimeFormat.FormatTimerTimeRoundTrip | src/App.jsx:158-164 | the countdown display reads back as the whole seconds remaining, minutes unbounded |
| TimeFormat.ReadTimerTimeCanonical | src/App.jsx:158-164 | any text that reads as a number of seconds is exactly the countdown display of that time: minutes padded to two digits or more, seconds two digits below 60 |
| LapStats.Splits | src/App.jsx:317-319 | the split recomputation on load; `RunningTotalsOfSplits` and `SplitsOfRunningTotals` prove it inverse to accumulation, `SumOfSplits` that it telescopes |
| LapStats.NextSplit | src/App.jsx:195 | the split a new lap adds; `SplitsAppend` proves appending it agrees with `Splits` |
| LapStats.Sum | src/App.jsx:236 | the `reduce` of the average; `SumOfSplits` gives its value on recomputed splits, `SumBounds` its bounds |
| LapStats.SplitsAppend | src/App.jsx:192-197 | appending each lap's split as it is captured builds exactly the splits recomputed from the laps on load |
| LapStats.RunningTotalsOfSplits | src/App.jsx:317-319 | accumulating the recomputed splits gives the laps back |
| LapStats.SplitsOfRunningTotals | src/App.jsx:317-319 | recomputing splits from accumulated splits gives the splits back |
| LapStats.SumOfSplits | src/App.jsx:195-197 | the splits add up to the last lap |
| LapStats.AscendingIffSplitsNonNegative | src/App.jsx:195 | laps are non-decreasing iff every split is non-negative |
| LapStats.Minimum | src/App.jsx:226 | `Math.min` returns an element that is at most every element |
| LapStats.Maximum | src/App.jsx:231 | `Math.max` returns an element that is at least every element |
| LapStats.BestLap | src/App.jsx:224-227 | `null` iff there are no splits; otherwise a split that is at most every split |
| LapStats.WorstLap | src/App.jsx:229-232 | `null` iff there are no splits; otherwise a split that is at least every split |
| LapStats.AverageLap | src/App.jsx:234-237 | `null` iff there are no splits; otherwise a quotient over exactly the number of splits; its value is pinned by `AverageOfRecomputedSplits` |
| LapStats.AverageOfRecomputedSplits | src/App.jsx:234-237 | the average of the splits of any non-empty lap list is exactly the last lap divided by the number of laps |
| LapStats.AverageBetweenBestAndWorst | src/App.jsx:224-237 | best ≤ average ≤ worst, compared exactly by cross-multiplication |
| LapStats.IsBestLap | src/App.jsx:418 | a lap is marked best iff its split is at most every split |
| LapStats.IsWorstLap | src/App.jsx:419 | a lap is marked worst iff its split is at least every split |
| LapStats.TiedLapsAllMarked | src/App.jsx:416-425 | laps with equal splits are marked alike, and some lap is marked best and some worst |
| History.Archive | src/App.jsx:182 | the new record comes first, the old records follow in order, and only ten are kept |
| History.SavedIsNewestFirst | src/App.jsx:173-183 | after any number of saves the history is the ten most recent records, newest first |
| StopwatchEngine.Stopwatch.constructor | src/App.jsx:8-11 | the stopwatch starts at 0, stopped, with no laps, splits or history |
| StopwatchEngine.Stopwatch.Tick | src/App.jsx:56-60 | one interval firing adds exactly 10 ms while running and changes nothing when stopped |
| StopwatchEngine.Stopwatch.Advance | src/App.jsx:56-72 | `n` firings add exactly `10 * n` ms while running |
| StopwatchEngine.Stopwatch.StartStop | src/App.jsx:167-171 | running toggles; paused becomes the new running value; a click is requested |
| StopwatchEngine.Stopwatch.Lap | src/App.jsx:192-203 | no-op when stopped; otherwise appends the time as a lap and the time since the last lap as its split, keeping laps ordered and splits equal to those recomputed from laps |
| StopwatchEngine.Stopwatch.Reset | src/App.jsx:173-190 | a session with laps is archived as one record of the pre-reset time and laps; without laps the history is unchanged; then time 0, no laps or splits, stopped, not paused |
| StopwatchEngine.Stopwatch.LoadWorkout | src/App.jsx:313-322 | time and laps become the record's, splits are recomputed from its laps, running is unchanged |
| StopwatchEngine.Stopwatch.ClearHistory | src/App.jsx:307-311 | a confirmed clear empties the history and touches nothing else |
| StopwatchEngine.Stopwatch.Caption | src/App.jsx:365-367 | the caption is STOP exactly while running |
| StopwatchEngine.Stopwatch.ResumeNeverShown | src/App.jsx:167-171 | in every reachable state the caption is never RESUME, and START whenever stopped |
| StopwatchEngine.Stopwatch.SplitsAddUpToLastLap | src/App.jsx:192-197 | the shown splits add up to the last lap and none exceeds the current time |
| TimerInputs.ClampMinutes | src/App.jsx:534 | the minutes field takes a non-negative entry as typed and 0 for NaN or a negative entry |
| TimerInputs.ClampSeconds | src/App.jsx:544 | the seconds field takes an entry in [0, 59] as typed, 59 above, 0 for NaN or below |
| TimerInputs.ClampsIdempotent | src/App.jsx:534-544 | clamping a clamped value changes nothing |
| TimerInputs.FewerSets | src/App.jsx:560 | "-" lowers the target by one, never below 1 |
| TimerInputs.MoreSets | src/App.jsx:567 | "+" raises the target by one, never above 99 |
| TimerInputs.SetsStepperRoundTrip | src/App.jsx:558-568 | the target stays in [1, 99], and "+" and "-" undo each other away from the ends |
| TimerInputs.SetLength | src/App.jsx:247 | the set length from the inputs; `PresetFields` shows a preset's fields give back its length |
| TimerInputs.PresetFields | src/App.jsx:261-264 | a preset's minutes and seconds (seconds below 60) describe exactly its set length |
| TimerInputs.PresetsStartable | src/App.jsx:22-29 | every preset button gives a seconds field below 60 and a non-zero set length equal to its seconds times 1000 |
| TimerInputs.CircleProgress | src/App.jsx:272-275 | the remaining share in percent, 0 for an empty set; `BelowFifthIsProgressBelow20` relates it to the exact threshold |
| TimerInputs.BelowFifth | src/App.jsx:493 | the orange test; `BelowFifthIsProgressBelow20` proves it equal to `getCircleProgress() < 20` |
| TimerInputs.BelowFifthIsProgressBelow20 | src/App.jsx:272-275 | `remaining * 5 < total` (or an empty set) holds iff the progress percentage is below 20 |
| TimerInputs.RingColourOf | src/App.jsx:493 | the ring colour; `RingOnlyEscalates` proves it only escalates as time falls |
| TimerInputs.RingOnlyEscalates | src/App.jsx:493 | as the remaining time falls, the ring colour goes only from blue to orange (below 20 %, `remaining * 5 < total`) to red (at 0) |
| CountdownEngine.Countdown.constructor | src/App.jsx:15-21 | a 5:00 set, one set, stopped, nothing pending |
| CountdownEngine.Countdown.ConfigVisible | src/App.jsx:512 | the idle state that shows presets and inputs; `Reset`, `SetTimer` and `PresetClick` ensure it |
| CountdownEngine.Countdown.StartEnabled | src/App.jsx:579 | START is enabled iff the set length is non-zero; `StartStop` requires it and `SetBeyondTarget` shows it after the last set |
| CountdownEngine.Countdown.StartStop | src/App.jsx:240-243 | with a non-zero set length, running toggles and nothing else changes |
| CountdownEngine.Countdown.Tick | src/App.jsx:76-101 | stopped: no change; above 10 ms: exactly 10 ms less; otherwise: 0 ms, stopped, one more set, the alarm requested, and a restart armed iff the new count is below the target; remaining stays in [0, total] |
| CountdownEngine.Countdown.RestRestart | src/App.jsx:92-95 | the oldest armed restart refills the current set length and starts; remaining stays in [0, total] |
| CountdownEngine.Countdown.RestRestartAsWritten | src/App.jsx:92-95 | the oldest armed restart refills the set length captured when it was armed and starts |
| CountdownEngine.Countdown.Reset | src/App.jsx:245-251 | stopped, set length recomputed from the inputs, remaining equal to it, no sets done, so the idle configuration screen is back |
| CountdownEngine.Countdown.SetTimer | src/App.jsx:253-259 | the same new state as RESET |
| CountdownEngine.Countdown.PresetClick | src/App.jsx:261-270 | minutes `s div 60`, seconds `s mod 60`, set length and remaining `s * 1000`, stopped, no sets done, idle |
| CountdownEngine.Countdown.EnterMinutes | src/App.jsx:529-535 | the minutes input becomes the clamped entry; the running set is untouched |
| CountdownEngine.Countdown.EnterSeconds | src/App.jsx:539-545 | the seconds input becomes the clamped entry; the running set is untouched |
| CountdownEngine.Countdown.FewerSetsClick | src/App.jsx:558-563 | the target becomes `FewerSets` of the old one and stays in [1, 99] |
| CountdownEngine.Countdown.MoreSetsClick | src/App.jsx:565-570 | the target becomes `MoreSets` of the old one and stays in [1, 99] |
| LapExport.CsvRow | src/App.jsx:278-282 | one lap's line; `CsvRowFields` splits it back into its three fields |
| LapExport.CsvRows | src/App.jsx:278-282 | one line per lap; `CsvLapFields` shows line `i + 1` is `Lap i+1`, lap `i`'s time, then its split |
| LapExport.CsvText | src/App.jsx:277-284 | the exported text; `CsvLines` splits it back into the header and the rows |
| LapExport.CsvRowFields | src/App.jsx:278-282 | a row has no line break and splits on commas into exactly `Lap n`, the lap time and the split time |
| LapExport.CsvLapFields | src/App.jsx:278-284 | the export has one line more than there are laps, and line `i + 1` splits on commas into `Lap i+1`, lap `i`'s time and lap `i`'s split, in that order |
| LapExport.CsvLines | src/App.jsx:277-284 | the text splits into the header and then one row per lap, in order |
| Scenarios.TwoLapSession | src/App.jsx:167-203 | laps at 1230 and 1730 ms give splits 1230 and 500; a second reset saves nothing more |
| Scenarios.TwoLapStatistics | src/App.jsx:224-237 | for splits 1230 and 500: best 500, worst 1230, average exactly 1730 / 2 |
| Scenarios.SaveAndReload | src/App.jsx:313-322 | resetting a session with laps and loading its record restores its time, laps and splits |
| Scenarios.ThirtySecondsTwice | src/App.jsx:78-99 | a 30 s preset with two sets completes twice with one automatic restart between, then stops with nothing pending |
| Scenarios.SetBeyondTarget | src/App.jsx:78-99 | starting again after the only set ran out counts a second set: completed 2 of 1 |
| Scenarios.RestartAfterReconfiguring | src/App.jsx:92-95 | after reconfiguring during the rest, the restart as written leaves 60 000 ms remaining of a 30 000 ms set; the corrected one leaves 30 000 |

## Left out

- Rendering, tabs, settings toggles and dark mode: presentation only.
- Sound and vibration output: the engines return `Click`, `Alarm` and `Vibrate` tags unconditionally. The sound and vibration settings, device support, the preloaded alarm audio and the fallback beep are not modelled.
- The 10 ms and 2 s browser timers and the effect that re-subscribes the interval: replaced by explicit `Tick`, `Advance` and `RestRestart` calls. The 2 s delay itself is not modelled, so a restart may fire after any sequence of other calls.
- The workout record's constant `type: 'stopwatch'` field. The ISO timestamp is a parameter.
- Parsing the typed text with `parseInt`: the entry arrives already parsed.
- The ring's dash offset, and the float rounding of `getCircleProgress`: `CircleProgress` computes the percentage over exact reals, so a double that rounds across 20 % at the exact boundary is not modelled.
- Displaying the fractional average with `formatTime`: the average is kept as an exact ratio.
- The share text, clipboard, alert and the download of the CSV file: browser I/O. The CSV text itself is modelled.
- The history panel's show/hide flag, which loading a workout also resets.
- TimerInputs.ClampMinutes, TimerInputs.SetLength: JavaScript numbers are doubles, so `(timerMinutes * 60 + timerSeconds) * 1000` is exact only up to 2^53 ms (typed minutes below about 1.5·10^11); the model computes exactly over unbounded integers, so larger typed minutes, which the source rounds, are not modelled.
- Countdown.StartStop: requires a non-zero set length. The handler has no guard of its own, but the button is disabled for a zero length.
- Countdown.Tick: the alarm, vibration and set count happen inside a React state updater. The model performs them once per completing tick.

## Findings

| source | as written | input that shows it | evidently intended | confidence | as-written member | corrected member |
|---|---|---|---|---|---|---|
| src/App.jsx:92-95 | the restart closure sets the remaining time to the `timerTotal` captured when the set completed, and nothing cancels it | a 1:00 set with two sets completes; during the 2 s rest the user presses RESET and then the 30 s preset; the restart sets 60 000 ms remaining of a 30 000 ms set, and the ring shows 200 % | the next set starts from the current set length, so the remaining time stays within [0, total] | medium, not executed: follows from how the interval callback's closure captures state | CountdownEngine.Countdown.RestRestartAsWritten, Scenarios.RestartAfterReconfiguring | CountdownEngine.Countdown.RestRestart |
