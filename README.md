# Mastery productivity app: a verified model of its logic

Mastery is a single-page React app for focused work. It has five screens:

- a *focus hub* with a countdown timer over a chosen task;
- *willpower challenges*, timed self-challenges that move an "aMCC level" score;
- a *task board* with three Kanban columns, search, tag filters, drag and drop, and add and delete;
- a *login* screen and a *sign-up* screen with form validation;
- a *dashboard* with activity and progress widgets.

Nearly all of the code is rendering. This project models the logic underneath it in Dafny:

- the state machines behind the two timers;
- the board operations;
- the form validators;
- the formatters and colour and label classifiers that turn numbers into text.

It then proves what that logic promises.

The project has one module per source component. Stateful components become classes whose methods stand for the event handlers: a `Tick()` method stands for each interval timer, and `modifies` clauses and `old(…)` describe the state change. Pure components become functions, with lemmas relating them to a partner. The partner is a reader that parses the output back, a partition of the input space, or an invariant.

Five helper modules hold what several components share:

- `Wrappers`: `Option`.
- `Numbers`:
  - JavaScript's `%` (`Rem`);
  - `Math.round` of a ratio, as an exact integer (`RoundRatio`);
  - `toString`, `padStart`, and `parseInt` (decimal and hexadecimal prefixes);
  - a NaN-capable number type `Num`.
- `Text`: `trim`, `split`, `includes`, `replace` with a string pattern, ASCII `toLowerCase`, and `length` counted in UTF-16 code units (`Utf16Length`).
- `Seqs`: filter, take, splice, and an insertion-ordered set.
- `Durations`: the "Hh Mm" rendering and its reader.

Main results:

- **Willpower engine.**
  - The level stays within 0..100 over any run of outcomes.
  - The history is exactly the ten newest records.
  - The countdown tick that reaches 0 completes the challenge. As a consequence, while a challenge exists the "Success!/Failed" pair (shown only at exactly 0) is never rendered.
- **Focus session.** The invariant "`timeRemaining` equals `duration` while idle" is kept, and the accumulated counters never decrease.
- **Task board.**
  - A drag keeps the multiset of tasks on the board whenever the task at the source index is the dragged task. With an active filter this can fail (see "Left out").
  - Tag parsing gives clean tags and inverts joining.
  - The tag list holds each tag of the board exactly once.
- **Form validators.** Each regular expression is characterised in plain terms: one '@', no white space, a '.' inside the domain. The login pattern is proved strictly looser than the sign-up pattern.
- **Formatters.** Every clock formatter reads back to its input. The formatters that take seconds and print "Hh Mm" read back to the whole minutes `floor(s/60)` for any s >= 0. Every classifier is proved to partition its input range.

## Model

| member | source | states |
|---|---|---|
| WillpowerChallenges.LevelStaysInRange | mastery/mastery/src/pages/willpower-challenges/index.jsx:160-197 | a level starting in [0,100] stays in [0,100] after any sequence of successes (`min(100, l+5)`) and failures (`max(0, l-10)`) |
| WillpowerChallenges.SuccessesInARow | mastery/mastery/src/pages/willpower-challenges/index.jsx:160-162 | k successes in a row from a level of at most 100 give `min(100, level+5k)` |
| WillpowerChallenges.FailuresInARow | mastery/mastery/src/pages/willpower-challenges/index.jsx:197-199 | k failures in a row from a level of at least 0 give `max(0, level-10k)` |
| WillpowerChallenges.Prepend | mastery/mastery/src/pages/willpower-challenges/index.jsx:166 | `[rec, ...prev.slice(0, 9)]` has the new record first and then the older records in their order; its length is one more than before up to a cap of 10 |
| WillpowerChallenges.HistoryIsWindow | mastery/mastery/src/pages/willpower-challenges/index.jsx:166 | after one or more outcomes the history is exactly the ten most recent records, newest first |
| WillpowerChallenges.SuccessRecord | mastery/mastery/src/pages/willpower-challenges/index.jsx:152-158 | a success record keeps the challenge's fields, with status 'completed', outcome 'success' and change 5 |
| WillpowerChallenges.FailureRecord | mastery/mastery/src/pages/willpower-challenges/index.jsx:189-195 | a failure record keeps the challenge's fields, with status 'failed', outcome 'failure' and change -10 |
| WillpowerChallenges.MinutesTimeframe | mastery/mastery/src/pages/willpower-challenges/index.jsx:114-118 | a timeframe in minutes is accepted iff it is positive, and gives 60 times the minutes |
| WillpowerChallenges.CustomTimeframe | mastery/mastery/src/pages/willpower-challenges/index.jsx:114-118 | a custom integer text gives 60 times its value, accepted iff positive |
| WillpowerChallenges.EmptyCustomDurationAccepted | mastery/mastery/src/pages/willpower-challenges/index.jsx:114-118 | an empty custom duration is NaN seconds, and the `<= 0` test lets it through |
| WillpowerChallenges.ChallengeEngine.constructor | mastery/mastery/src/pages/willpower-challenges/index.jsx:28-49 | the page loads with the saved level and history, no challenge, countdown 0, an empty form and 30 minutes selected |
| WillpowerChallenges.ChallengeEngine.EditForm | mastery/mastery/src/pages/willpower-challenges/index.jsx:43-45 | the form inputs change and nothing else does |
| WillpowerChallenges.ChallengeEngine.CreateChallenge | mastery/mastery/src/pages/willpower-challenges/index.jsx:107-138 | a blank description, or a numeric duration `<= 0`, sets only the status message; otherwise the challenge starts with `timeRemaining = duration` and the form is cleared |
| WillpowerChallenges.ChallengeEngine.Complete | mastery/mastery/src/pages/willpower-challenges/index.jsx:148-170 | does nothing without a challenge; otherwise raises the level to `min(100, l+5)`, prepends the success record and clears the challenge |
| WillpowerChallenges.ChallengeEngine.Fail | mastery/mastery/src/pages/willpower-challenges/index.jsx:185-207 | does nothing without a challenge; otherwise lowers the level to `max(0, l-10)`, prepends the failure record and clears the challenge |
| WillpowerChallenges.ChallengeEngine.Stop | mastery/mastery/src/pages/willpower-challenges/index.jsx:218-226 | does nothing without a challenge; otherwise clears it with the countdown at 0, leaving the level and history untouched |
| WillpowerChallenges.ChallengeEngine.Tick | mastery/mastery/src/pages/willpower-challenges/index.jsx:63-79 | runs only while active with seconds left; takes one second off; the tick at 1 sets the countdown to 0 and completes the challenge |
| FocusHub.FocusedMinutes | mastery/mastery/src/pages/focus-hub/index.jsx:133 | the credit is the floor of the elapsed seconds over 60, and not negative while the countdown is within the duration |
| FocusHub.SessionMinutes | mastery/mastery/src/pages/focus-hub/index.jsx:152 | a completed session credits the floor of its duration over 60 |
| FocusHub.StopAtZeroCreditsSession | mastery/mastery/src/pages/focus-hub/index.jsx:132-154 | stopping at a countdown of 0 credits exactly what completing credits |
| FocusHub.StopCreditsAtMostSession | mastery/mastery/src/pages/focus-hub/index.jsx:132-154 | stopping early never credits more than completing would |
| FocusHub.FocusSession.constructor | mastery/mastery/src/pages/focus-hub/index.jsx:28-38 | no task, 25 minutes with the countdown at the duration, idle, zero counters |
| FocusHub.FocusSession.Start | mastery/mastery/src/pages/focus-hub/index.jsx:112-124 | without a task it only sets the message; with one it makes the session active and not paused, leaving the countdown and counters alone |
| FocusHub.FocusSession.Pause | mastery/mastery/src/pages/focus-hub/index.jsx:126-130 | flips the pause flag (two pauses restore it), with the matching message |
| FocusHub.FocusSession.Stop | mastery/mastery/src/pages/focus-hub/index.jsx:132-146 | adds the whole minutes focused to the focus time only when positive, resets the countdown to the duration, and leaves the session count alone |
| FocusHub.FocusSession.Complete | mastery/mastery/src/pages/focus-hub/index.jsx:148-157 | adds one session and the duration's whole minutes, and resets the countdown |
| FocusHub.FocusSession.Tick | mastery/mastery/src/pages/focus-hub/index.jsx:87-103 | runs only while active, unpaused and positive; subtracts exactly 1 and never goes below 0; at 1 it completes; the counters never decrease |
| FocusHub.FocusSession.TaskSelect | mastery/mastery/src/pages/focus-hub/index.jsx:159-168 | rejected while active; otherwise the task is selected |
| FocusHub.FocusSession.DurationChange | mastery/mastery/src/pages/focus-hub/index.jsx:170-177 | rejected while active; otherwise the duration and (by the sync effect) the countdown take the new value |
| Clock.FieldsRecombine | mastery/mastery/src/pages/focus-hub/index.jsx:189-194 | for `s >= 0`, `3600*(s/3600) + 60*((s%3600)/60) + s%60 == s`, with minutes and seconds below 60 |
| TimerDisplay.FormatTimeReadsBack | mastery/mastery/src/pages/focus-hub/components/TimerDisplay.jsx:11-16 | the "HH:MM:SS" clock of a non-negative count reads back as that count |
| TimerDisplay.FormatTimeUnderAnHour | mastery/mastery/src/pages/focus-hub/components/TimerDisplay.jsx:11-16 | under an hour the clock starts with "00:" |
| TimerDisplay.StatusCases | mastery/mastery/src/pages/focus-hub/components/TimerDisplay.jsx:22-32 | text and colour follow the same three cases: inactive whatever the pause flag, paused, running (each an iff) |
| TimerDisplay.ElapsedReadsBack | mastery/mastery/src/pages/focus-hub/components/TimerDisplay.jsx:128 | while the countdown is within the duration, the elapsed clock reads back as `duration - timeRemaining` and the remaining clock as `timeRemaining`, so the two read-backs sum to the duration |
| ActiveChallenge.FormatTimeReadsBack | mastery/mastery/src/pages/willpower-challenges/components/ActiveChallenge.jsx:14-23 | the "MM:SS" or "HH:MM:SS" clock of a non-negative count reads back as that count |
| ActiveChallenge.SameClockFromAnHour | mastery/mastery/src/pages/willpower-challenges/components/ActiveChallenge.jsx:14-23 | from one hour on it prints the focus timer's clock |
| ActiveChallenge.ShorterClockUnderAnHour | mastery/mastery/src/pages/willpower-challenges/components/ActiveChallenge.jsx:14-23 | under an hour it prints the focus timer's clock without its leading "00:" |
| ActiveChallenge.TimeColorBands | mastery/mastery/src/pages/willpower-challenges/components/ActiveChallenge.jsx:29-34 | for a positive duration: error iff `100r <= 10d`, warning iff `10d < 100r <= 25d`, accent iff `100r > 25d` |
| ActiveChallenge.NaNIsAccent | mastery/mastery/src/pages/willpower-challenges/components/ActiveChallenge.jsx:29-34 | a NaN countdown fails both comparisons and is shown in accent |
| ActiveChallenge.Render | mastery/mastery/src/pages/willpower-challenges/components/ActiveChallenge.jsx:36 | nothing is rendered exactly when there is no challenge |
| ActiveChallenge.VerdictExactlyAtZero | mastery/mastery/src/pages/willpower-challenges/components/ActiveChallenge.jsx:90 | the Success/Failed pair is offered iff the countdown is exactly 0 |
| ActiveChallenge.ElapsedIsTimeGone | mastery/mastery/src/pages/willpower-challenges/components/ActiveChallenge.jsx:161 | within the duration, elapsed is non-negative and elapsed plus remaining equals the duration |
| ActiveChallenge.ElapsedNaN | mastery/mastery/src/pages/willpower-challenges/components/ActiveChallenge.jsx:161 | a NaN duration or countdown makes elapsed NaN, printed "NaN:NaN" |
| ActiveChallenge.VerdictNeverShown | mastery/mastery/src/pages/willpower-challenges/components/ActiveChallenge.jsx:90-147 | in every valid engine state with a challenge, the running controls are shown |
| ChallengeHistory.FormatDurationOfMinutes | mastery/mastery/src/pages/willpower-challenges/components/ChallengeHistory.jsx:15-23 | for non-negative seconds, the text is the shared "Hh Mm" form of `floor(s/60)` minutes |
| ChallengeHistory.FormatDurationReadsBack | mastery/mastery/src/pages/willpower-challenges/components/ChallengeHistory.jsx:15-23 | the text reads back as the whole minutes |
| ChallengeHistory.OutcomeStyles | mastery/mastery/src/pages/willpower-challenges/components/ChallengeHistory.jsx:25-45 | icons: CheckCircle iff success, XCircle iff failure, Clock iff anything else; the badge colour is "text-" plus the icon's colour name |
| ChallengeHistory.RecordedOutcomesStyled | mastery/mastery/src/pages/willpower-challenges/components/ChallengeHistory.jsx:36-45 | the records the engine writes get the success and error colours |
| ChallengeHistory.ChangeDisplaySign | mastery/mastery/src/pages/willpower-challenges/components/ChallengeHistory.jsx:47-66 | colour and icon follow the sign of the change (each an iff) |
| ChallengeHistory.ChangeTextReadsBack | mastery/mastery/src/pages/willpower-challenges/components/ChallengeHistory.jsx:47-66 | the text ends in '%' and, without it, `parseInt` gives back the change with its sign |
| ChallengeHistory.CountsBounded | mastery/mastery/src/pages/willpower-challenges/components/ChallengeHistory.jsx:158-168 | successes plus failures are at most the history's length |
| ChallengeHistory.RateBounds | mastery/mastery/src/pages/willpower-challenges/components/ChallengeHistory.jsx:171 | the rate `round(100*S/n)` lies in [0,100]: 0 with no success, 100 with only successes |
| ChallengeHistory.Render | mastery/mastery/src/pages/willpower-challenges/components/ChallengeHistory.jsx:68-150 | empty state iff the history is missing or empty; otherwise the total and one entry per challenge, in order |
| ChallengeHistory.SummaryBounded | mastery/mastery/src/pages/willpower-challenges/components/ChallengeHistory.jsx:153-175 | the summary counts each challenge at most once and shows a rate in 0..100 |
| SessionStats.StreakMessageBands | mastery/mastery/src/pages/focus-hub/components/SessionStats.jsx:15-21 | the message partitions a streak into 0, 1..4, 5..9, 10..19 and 20 or more |
| SessionStats.StreakColorFollowsMessage | mastery/mastery/src/pages/focus-hub/components/SessionStats.jsx:23-28 | the colour bands coincide with the message bands, the last two sharing the success colour |
| SessionStats.BarsCapped | mastery/mastery/src/pages/focus-hub/components/SessionStats.jsx:107-128 | both bars lie in 0..100; the daily bar is full iff the badge shows (>= 4 sessions); the weekly bar is full iff >= 600 minutes, and below that it is `t/6` |
| SessionStats.WeeklyWidthMonotone | mastery/mastery/src/pages/focus-hub/components/SessionStats.jsx:121 | the weekly bar never shrinks as focus time grows |
| SessionStats.IconColorOfTextColor | mastery/mastery/src/pages/focus-hub/components/SessionStats.jsx:68 | replacing the first "text-" turns a text colour into "var(--color-" plus its name |
| SessionStats.StreakIconColor | mastery/mastery/src/pages/focus-hub/components/SessionStats.jsx:68 | every streak colour starts with "text-", so its icon colour is that rewrite |
| SessionStats.CardAgrees | mastery/mastery/src/pages/focus-hub/components/SessionStats.jsx:30-128 | three cards; focus time reads back and equals the weekly label's figure; the session count parses back; the streak card and message share a colour; the reminder iff streak > 0; the badge iff the daily bar is full |
| TaskCard.FormatFocusTimeIsShared | mastery/mastery/src/pages/task-management/components/TaskCard.jsx:5-13 | the early '0m' agrees with the shared "Hh Mm" form, so the card equals it for every count |
| TaskCard.FocusTimeReadsBack | mastery/mastery/src/pages/task-management/components/TaskCard.jsx:5-13 | the card's figure reads back as the task's focus minutes |
| TaskCard.ElapsedHours | mastery/mastery/src/pages/task-management/components/TaskCard.jsx:18 | the hour count is the floor of the elapsed milliseconds over 3600000 |
| TaskCard.LastSessionBuckets | mastery/mastery/src/pages/task-management/components/TaskCard.jsx:18-27 | 'Just now' iff h < 1; 'h ago' for 1..23; 'Yesterday' iff day 1; 'Nd ago' for days 2..6; the date iff 7 days or more |
| TaskCard.NoLastSession | mastery/mastery/src/pages/task-management/components/TaskCard.jsx:16 | no date gives no "Last:" line |
| TaskCard.AgoReadsBack | mastery/mastery/src/pages/task-management/components/TaskCard.jsx:21-25 | the hour and day labels parse back as the elapsed hours and days |
| RecentActivity.TimeAgoBuckets | mastery/mastery/src/pages/dashboard/components/RecentActivity.jsx:54-66 | 'Just now' below 1 minute, 'm ago' below 60, 'h ago' (1..23) below a day, and whole days beyond |
| RecentActivity.MinuteHourBoundary | mastery/mastery/src/pages/dashboard/components/RecentActivity.jsx:59-62 | 59 minutes gives "59m ago" and 60 gives "1h ago" |
| RecentActivity.JustNowExactly | mastery/mastery/src/pages/dashboard/components/RecentActivity.jsx:58-59 | 'Just now' iff fewer than one whole minute |
| RecentActivity.ColorNames | mastery/mastery/src/pages/dashboard/components/RecentActivity.jsx:68-88 | both tables know exactly the same five colour names |
| RecentActivity.ActivityColorKnown | mastery/mastery/src/pages/dashboard/components/RecentActivity.jsx:68-76 | a known name maps to "text-" plus the name |
| RecentActivity.ColorDefaults | mastery/mastery/src/pages/dashboard/components/RecentActivity.jsx:68-88 | an unknown name falls back to text-text-secondary and bg-surface/50 |
| RecentActivity.SignalBackground | mastery/mastery/src/pages/dashboard/components/RecentActivity.jsx:79-87 | the four signal colours get "bg-" plus the name plus "/10" |
| RecentActivity.NeutralBackground | mastery/mastery/src/pages/dashboard/components/RecentActivity.jsx:79-87 | the neutral background iff the name is not one of the four signal colours |
| RecentActivity.CountIsOccurrences | mastery/mastery/src/pages/dashboard/components/RecentActivity.jsx:166-193 | each summary count is the number of activities of that type |
| RecentActivity.SummaryBounded | mastery/mastery/src/pages/dashboard/components/RecentActivity.jsx:162-193 | the four counts together are at most the number of activities |
| QuickStats.MockPercentages | mastery/mastery/src/pages/dashboard/components/QuickStats.jsx:6-17 | the built-in day's percentages round to 67 and 63 |
| QuickStats.PercentageBounds | mastery/mastery/src/pages/dashboard/components/QuickStats.jsx:16-17 | a part of at most the whole rounds into 0..100: 0 for none, 100 for all |
| QuickStats.ProgressColorBands | mastery/mastery/src/pages/dashboard/components/QuickStats.jsx:28-33 | success iff >= 80, accent iff 60..79, warning iff 40..59, error iff below 40 |
| QuickStats.MockColors | mastery/mastery/src/pages/dashboard/components/QuickStats.jsx:80-99 | both built-in bars are accent |
| QuickStats.EveryBandHasAClass | mastery/mastery/src/pages/dashboard/components/QuickStats.jsx:42-52 | every colour band has a bar class |
| QuickStats.BarWidthCapped | mastery/mastery/src/pages/dashboard/components/QuickStats.jsx:53 | the fill is at most 100, full iff the percentage is >= 100, and equal to it up to 100 |
| QuickStats.MockFocusTime | mastery/mastery/src/pages/dashboard/components/QuickStats.jsx:19-26 | the built-in figures read "2h 30m / 4h 0m" |
| SessionControls.Render | mastery/mastery/src/pages/focus-hub/components/SessionControls.jsx:24-78 | the pause and stop buttons exist iff the session is active |
| SessionControls.StartButtonStates | mastery/mastery/src/pages/focus-hub/components/SessionControls.jsx:12-29 | 'Resume' iff active and paused, 'Running' iff active and running, 'Start Focus' iff inactive; disabled iff `disabled` or running |
| SessionControls.BothResumeWhilePaused | mastery/mastery/src/pages/focus-hub/components/SessionControls.jsx:13-64 | while paused, the pause button reads the same 'Resume' as the start button |
| SessionControls.PressStart | mastery/mastery/src/pages/focus-hub/components/SessionControls.jsx:27-29 | a disabled button changes nothing; an enabled press leaves the session running with the started message, and the button reads 'Running' and is disabled. The countdown, task, duration and counters never change |
| SessionControls.PressPause | mastery/mastery/src/pages/focus-hub/components/SessionControls.jsx:53-66 | the pause flag flips with the paused or resumed message, and the labels flip between Pause/Running and Resume/Resume. Task, countdown, duration and counters are unchanged |
| SessionControls.PressStop | mastery/mastery/src/pages/focus-hub/components/SessionControls.jsx:69-78 | after stop, the pause and stop buttons are gone and the start button reads 'Start Focus'. The session is idle and unpaused, with the countdown reset to the duration. The whole minutes focused, if positive, are credited to the focus total with their message; otherwise the plain stop message. Task, duration and session count are unchanged |
| TaskSelector.UnknownStatusLooksTodo | mastery/mastery/src/pages/focus-hub/components/TaskSelector.jsx:14-30 | an unknown status gets the colour and icon of 'todo' |
| TaskSelector.KnownStatusesDiffer | mastery/mastery/src/pages/focus-hub/components/TaskSelector.jsx:23-30 | the three known statuses have distinct icons |
| TaskSelector.InProgressText | mastery/mastery/src/pages/focus-hub/components/TaskSelector.jsx:73 | 'in-progress' is shown as 'in progress' |
| TaskSelector.NoHyphenUnchanged | mastery/mastery/src/pages/focus-hub/components/TaskSelector.jsx:73 | a status without '-' is shown unchanged |
| TaskSelector.LastFocusBuckets | mastery/mastery/src/pages/focus-hub/components/TaskSelector.jsx:32-43 | 'Nd ago' from 24 hours on, 'Nh ago' for 1..23 hours, 'Recently' iff under an hour |
| TaskSelector.AgreesWithTaskCard | mastery/mastery/src/pages/focus-hub/components/TaskSelector.jsx:35-42 | agrees with the task card for 1..23 h and for days 2..6; for day 1 the picker writes '1d ago' where the card writes 'Yesterday' |
| TaskSelector.TagsAccounted | mastery/mastery/src/pages/focus-hub/components/TaskSelector.jsx:148-162 | the first min(n,3) tags are shown in order with '#'; a note appears iff n > 3, and its number parses back as n-3 |
| TaskSelector.Picker.constructor | mastery/mastery/src/pages/focus-hub/components/TaskSelector.jsx:5 | the list starts closed |
| TaskSelector.Picker.Toggle | mastery/mastery/src/pages/focus-hub/components/TaskSelector.jsx:49 | the button flips the list unless disabled |
| TaskSelector.Picker.CloseBackdrop | mastery/mastery/src/pages/focus-hub/components/TaskSelector.jsx:178-181 | the backdrop closes the list |
| TaskSelector.Picker.Select | mastery/mastery/src/pages/focus-hub/components/TaskSelector.jsx:7-12 | ignored while disabled (session active): list, task and message are kept. Otherwise the hub selects the task with its message and the list closes. Running, paused, duration, countdown and both counters never change |
| DurationSelector.FindPreset | mastery/mastery/src/pages/focus-hub/components/DurationSelector.jsx:41-43 | a found preset is in the list with that value; none is found iff no preset has it |
| DurationSelector.CurrentPresetExactly | mastery/mastery/src/pages/focus-hub/components/DurationSelector.jsx:8-43 | a preset matches iff the duration is 1500, 2700, 3600 or 5400, each with its own name; otherwise 'Custom Duration' |
| DurationSelector.FormatDurationOfMinutes | mastery/mastery/src/pages/focus-hub/components/DurationSelector.jsx:31-39 | for non-negative seconds, the text is the shared "Hh Mm" form of the whole minutes, leftover seconds dropped |
| DurationSelector.FormatDurationReadsBack | mastery/mastery/src/pages/focus-hub/components/DurationSelector.jsx:31-39 | the text reads back as the whole minutes, with an 'h' iff seconds >= 3600 |
| DurationSelector.CustomSecondsExactly | mastery/mastery/src/pages/focus-hub/components/DurationSelector.jsx:22-29 | accepted iff parseInt gives 1..180, emitting 60 times that; an accepted value has the Set button enabled |
| DurationSelector.DurationPicker.constructor | mastery/mastery/src/pages/focus-hub/components/DurationSelector.jsx:5-6 | an empty custom input, closed |
| DurationSelector.DurationPicker.PresetSelect | mastery/mastery/src/pages/focus-hub/components/DurationSelector.jsx:15-20 | when disabled nothing changes; otherwise the custom input closes and the custom text is kept. An idle session takes the preset as duration and countdown, with its message unchanged. An active session keeps its duration and countdown and shows the lock message. Running, paused, counters and task never change |
| DurationSelector.DurationPicker.OpenCustom | mastery/mastery/src/pages/focus-hub/components/DurationSelector.jsx:88 | opens the custom input unless disabled |
| DurationSelector.DurationPicker.EditCustom | mastery/mastery/src/pages/focus-hub/components/DurationSelector.jsx:107 | the input takes the typed text |
| DurationSelector.DurationPicker.CancelCustom | mastery/mastery/src/pages/focus-hub/components/DurationSelector.jsx:126-128 | closes and empties the input |
| DurationSelector.DurationPicker.CustomSubmit | mastery/mastery/src/pages/focus-hub/components/DurationSelector.jsx:22-29 | a refused value changes nothing; an accepted one goes to the session and the input closes, emptied. Accepted while idle, it sets duration and countdown with the message unchanged. Accepted while active, it leaves them and shows the lock message. The paused flag never changes |
| TaskManagement.WithCol | mastery/mastery/src/pages/task-management/index.jsx:135-138 | replacing one column changes only that column |
| TaskManagement.WithColMultiset | mastery/mastery/src/pages/task-management/index.jsx:147-151 | the board's multiset changes by exactly what that column lost and gained |
| TaskManagement.Find | mastery/mastery/src/pages/task-management/index.jsx:127 | `find` returns the first task with the id, or nothing iff none has it |
| TaskManagement.FindAtPosition | mastery/mastery/src/pages/task-management/index.jsx:125-127 | with distinct ids, the task found by id is the one at its position |
| TaskManagement.DragToNowhereOrSamePlace | mastery/mastery/src/pages/task-management/index.jsx:116-123 | no destination, or the same column and index, leaves the board unchanged |
| TaskManagement.DragWithinColumn | mastery/mastery/src/pages/task-management/index.jsx:129-138 | within a column: remove at the source index, insert the dragged task at the destination index; other columns unchanged |
| TaskManagement.DragAcrossColumns | mastery/mastery/src/pages/task-management/index.jsx:139-151 | across columns: the source shrinks by one and the destination grows by one with the task at the destination index; the third column is unchanged |
| TaskManagement.MoveWithinKeepsTasks | mastery/mastery/src/pages/task-management/index.jsx:129-138 | moving within a column keeps the board's multiset |
| TaskManagement.MoveAcrossKeepsTasks | mastery/mastery/src/pages/task-management/index.jsx:139-151 | moving across columns keeps the board's multiset |
| TaskManagement.DragKeepsTasks | mastery/mastery/src/pages/task-management/index.jsx:125-152 | when the task at the source index is the dragged one, every drag keeps the multiset of tasks |
| TaskManagement.ParsedTagsAreClean | mastery/mastery/src/pages/task-management/index.jsx:159 | every parsed tag is non-empty, trimmed, comma-free, and the trim of one comma-separated piece |
| TaskManagement.ParseTagsOfJoin | mastery/mastery/src/pages/task-management/index.jsx:159 | joining clean tags with commas and parsing gives the tags back |
| TaskManagement.NewTask | mastery/mastery/src/pages/task-management/index.jsx:155-164 | a new task has the parsed tags, focus time 0, not active, no last session |
| TaskManagement.WithoutRemovesExactly | mastery/mastery/src/pages/task-management/index.jsx:184 | deleting removes exactly the tasks with that id, keeps the others in order, and changes nothing when none has it |
| TaskManagement.FilteredTasksAreMatches | mastery/mastery/src/pages/task-management/index.jsx:191-201 | the filtered column is the ordered subsequence of the matching tasks |
| TaskManagement.NoFilterShowsAll | mastery/mastery/src/pages/task-management/index.jsx:191-201 | with an empty query and no selected tag, the column is shown whole |
| TaskManagement.FlatTagsMembers | mastery/mastery/src/pages/task-management/index.jsx:205-206 | a tag is among the flattened tags iff some task carries it |
| TaskManagement.AllTagsOnce | mastery/mastery/src/pages/task-management/index.jsx:203-209 | the tag list holds every tag on the board exactly once |
| TaskManagement.TaskBoard.constructor | mastery/mastery/src/pages/task-management/index.jsx:13-19 | the given board, the 'todo' column, no pending delete, closed dialogs, no filters |
| TaskManagement.TaskBoard.DragEnd | mastery/mastery/src/pages/task-management/index.jsx:113-153 | the board becomes the drag's result. When the task at the source index is the one `find` returns for the dragged id, the multiset of tasks is kept |
| TaskManagement.TaskBoard.OpenAddTask | mastery/mastery/src/pages/task-management/index.jsx:284-285 | the column becomes the target and the add dialog opens |
| TaskManagement.TaskBoard.CloseAddTask | mastery/mastery/src/pages/task-management/index.jsx:364 | closes the add dialog; nothing else changes |
| TaskManagement.TaskBoard.AddTask | mastery/mastery/src/pages/task-management/index.jsx:155-172 | appends the new task at the end of the selected column and closes the dialog; the other columns are unchanged |
| TaskManagement.TaskBoard.HandleDeleteTask | mastery/mastery/src/pages/task-management/index.jsx:174-177 | remembers the pending delete and opens the confirmation |
| TaskManagement.TaskBoard.ConfirmDelete | mastery/mastery/src/pages/task-management/index.jsx:179-189 | a pending delete filters its column by id; with none the board is unchanged; either way the confirmation closes and is cleared |
| TaskManagement.TaskBoard.CancelDelete | mastery/mastery/src/pages/task-management/index.jsx:373 | closes the confirmation and keeps the pending delete |
| TaskManagement.TaskBoard.SearchChange | mastery/mastery/src/pages/task-management/index.jsx:259 | only the query changes |
| TaskManagement.TaskBoard.ToggleTag | mastery/mastery/src/pages/task-management/components/TaskFilters.jsx:13-19 | the selection becomes its toggle; nothing else changes |
| TaskManagement.TaskBoard.ClearFilters | mastery/mastery/src/pages/task-management/components/TaskFilters.jsx:21-24 | an empty query and an empty tag list |
| TaskManagement.TaskBoard.GetAllTags | mastery/mastery/src/pages/task-management/index.jsx:203-209 | the loop's result has no duplicates and holds a tag iff some task carries it |
| TaskFilters.ToggleAbsentAppends | mastery/mastery/src/pages/task-management/components/TaskFilters.jsx:16-18 | toggling an unselected tag appends it at the end |
| TaskFilters.TogglePresentRemoves | mastery/mastery/src/pages/task-management/components/TaskFilters.jsx:14-15 | toggling a selected tag removes every copy and keeps the others in order |
| TaskFilters.ToggleFlips | mastery/mastery/src/pages/task-management/components/TaskFilters.jsx:13-19 | a toggle flips the tag's membership |
| TaskFilters.ToggleTwiceRestores | mastery/mastery/src/pages/task-management/components/TaskFilters.jsx:13-19 | toggling an absent tag twice restores the original list |
| TaskFilters.ClearAllFilters | mastery/mastery/src/pages/task-management/components/TaskFilters.jsx:21-24 | the cleared filters have an empty query, no tags, and are not active |
| TaskFilters.ActiveUnlessCleared | mastery/mastery/src/pages/task-management/components/TaskFilters.jsx:26 | filters are active iff the query is non-empty or a tag is selected |
| AddTaskModal.TitleErrorCases | mastery/mastery/src/pages/task-management/components/AddTaskModal.jsx:17-28 | 'required' iff the title is all white space; the length error iff its trim has 1 or 2 UTF-16 code units; no error iff the trim has at least 3 |
| AddTaskModal.EmojiTitleAccepted | mastery/mastery/src/pages/task-management/components/AddTaskModal.jsx:22 | a title of two emoji is four UTF-16 code units, so it has no error although it is two characters |
| AddTaskModal.AddTaskForm.constructor | mastery/mastery/src/pages/task-management/components/AddTaskModal.jsx:5-7 | an empty title, tags and errors |
| AddTaskModal.AddTaskForm.OpenChanged | mastery/mastery/src/pages/task-management/components/AddTaskModal.jsx:9-15 | opening resets the title, tags and errors; closing changes nothing |
| AddTaskModal.AddTaskForm.EditTitle | mastery/mastery/src/pages/task-management/components/AddTaskModal.jsx:86 | only the title changes |
| AddTaskModal.AddTaskForm.EditTags | mastery/mastery/src/pages/task-management/components/AddTaskModal.jsx:114 | only the tags change |
| AddTaskModal.AddTaskForm.ValidateForm | mastery/mastery/src/pages/task-management/components/AddTaskModal.jsx:17-28 | records the title's error and returns true iff the trimmed title has at least 3 UTF-16 code units |
| AddTaskModal.AddTaskForm.HandleSubmit | mastery/mastery/src/pages/task-management/components/AddTaskModal.jsx:30-39 | submits iff the trimmed title has at least 3 UTF-16 code units; the submitted title is trimmed, starts with no white space and has at least 3 code units; the tags are trimmed |
| RegisterScreen.ValidateEmailMeans | mastery/mastery/src/pages/register-screen/index.jsx:18-21 | the pattern accepts iff there is no white space, exactly one '@' with a non-empty local part, and a '.' after it that is neither first nor last in the domain |
| RegisterScreen.StrengthOfPassword | mastery/mastery/src/pages/register-screen/index.jsx:225-231 | the strength meter counts the true entries of the password check: 6 for a valid password (all five rules), at most 4 otherwise, so the fifth (green) bar is lit iff the password is valid |
| RegisterScreen.RequiredComesFirst | mastery/mastery/src/pages/register-screen/index.jsx:63-79 | each field's 'required' error appears iff that field is empty |
| RegisterScreen.MismatchExactly | mastery/mastery/src/pages/register-screen/index.jsx:75-79 | 'Passwords do not match' iff the confirmation is non-empty and differs |
| RegisterScreen.DuplicateOverrides | mastery/mastery/src/pages/register-screen/index.jsx:81-84 | the address `existing@example.com`, and no other, ends with the duplicate-account error |
| RegisterScreen.EmptyEmailInvalid | mastery/mastery/src/pages/register-screen/index.jsx:19 | the empty address does not match the pattern |
| RegisterScreen.AcceptedExactly | mastery/mastery/src/pages/register-screen/index.jsx:63-90 | no error iff the address matches and is not taken, the password is valid (at least 8 UTF-16 code units and all four character classes) and the confirmation equals it |
| RegisterScreen.EmojiPasswordValid | mastery/mastery/src/pages/register-screen/index.jsx:24-36 | `Aa1!` and two emoji make eight UTF-16 code units in six characters, and the password is valid |
| RegisterScreen.NameIsLocalPart | mastery/mastery/src/pages/register-screen/index.jsx:100 | the stored name is the whole non-empty part before the '@' |
| RegisterScreen.RegisterForm.constructor | mastery/mastery/src/pages/register-screen/index.jsx:7-13 | empty fields, no errors, not loading, nothing stored |
| RegisterScreen.RegisterForm.InputChange | mastery/mastery/src/pages/register-screen/index.jsx:40-54 | only the edited field changes and only its error is cleared |
| RegisterScreen.RegisterForm.HandleSubmit | mastery/mastery/src/pages/register-screen/index.jsx:56-114 | any error is shown with no storage write; otherwise the token and user are stored (name = local part) and the route is the dashboard |
| LoginForm.LooksLikeEmailShortest | mastery/mastery/src/pages/login-screen/components/LoginForm.jsx:34 | the unanchored `\S+@\S+\.\S+` matches iff some '@' and a later '.' frame a space-free middle, with a non-space character on either side |
| LoginForm.SignUpAddressesPass | mastery/mastery/src/pages/login-screen/components/LoginForm.jsx:34 | every address the sign-up pattern accepts, the login pattern accepts |
| LoginForm.LoginIsLooser | mastery/mastery/src/pages/login-screen/components/LoginForm.jsx:34 | the login pattern accepts "a@b@c.d", which sign-up refuses |
| LoginForm.EmailErrorCases | mastery/mastery/src/pages/login-screen/components/LoginForm.jsx:32-36 | 'required' iff empty; no error iff the pattern matches |
| LoginForm.PasswordErrorCases | mastery/mastery/src/pages/login-screen/components/LoginForm.jsx:38-42 | 'required' iff empty; the length error iff 1..5 UTF-16 code units; no error iff 6 or more |
| LoginForm.EmojiPasswordLongEnough | mastery/mastery/src/pages/login-screen/components/LoginForm.jsx:40 | three emoji are six UTF-16 code units, so they pass the length test although they are three characters |
| LoginForm.DemoCredentialsPass | mastery/mastery/src/pages/login-screen/components/LoginForm.jsx:29-46 | the demo credentials pass the form |
| LoginForm.LoginFormState.constructor | mastery/mastery/src/pages/login-screen/components/LoginForm.jsx:5-10 | empty fields, no errors, not loading |
| LoginForm.LoginFormState.InputChange | mastery/mastery/src/pages/login-screen/components/LoginForm.jsx:13-27 | only the edited field changes and only its error is cleared |
| LoginForm.LoginFormState.ValidateForm | mastery/mastery/src/pages/login-screen/components/LoginForm.jsx:29-46 | errors become the fields' errors, and the result is true iff none was recorded |
| LoginForm.LoginFormState.HandleSubmit | mastery/mastery/src/pages/login-screen/components/LoginForm.jsx:48-70 | an invalid form never calls the login; a valid one does, and a refusal's error becomes the only error |
| LoginScreen.Session.HandleLogin | mastery/mastery/src/pages/login-screen/index.jsx:29-54 | success iff the email and password are the demo pair; then the token, the user (with the submitted email) and the dashboard route are set; otherwise an error and no writes |
| LoginScreen.RefusalNamesCredentials | mastery/mastery/src/pages/login-screen/index.jsx:49-52 | the refusal message names both demo credentials |
| Durations.HoursMinutesRoundTrip | mastery/mastery/src/pages/focus-hub/components/SessionStats.jsx:5-13 | the "Hh Mm" text of a non-negative count of minutes reads back as that count |
| Durations.HoursShownFromAnHour | mastery/mastery/src/pages/dashboard/components/QuickStats.jsx:19-26 | the hours field appears iff there are at least 60 minutes |
| Numbers.RoundPercent | mastery/mastery/src/pages/willpower-challenges/components/ChallengeHistory.jsx:171 | `Math.round(100*part/whole)` for `0 <= part <= whole` lies in 0..100, 0 for none and 100 for all |
| Numbers.Pad2IsPadStart | mastery/mastery/src/pages/focus-hub/components/TimerDisplay.jsx:15 | two-digit padding is `padStart(2, '0')` of the decimal text |
| Text.TrimIdempotent | mastery/mastery/src/pages/task-management/components/AddTaskModal.jsx:35-36 | trimming an already trimmed text changes nothing |
| Text.Utf16LengthBounds | mastery/mastery/src/pages/task-management/components/AddTaskModal.jsx:22 | a text has at least as many UTF-16 code units as characters and at most twice as many, so only the empty text has length 0 |
| Text.Utf16LengthOfBmp | mastery/mastery/src/pages/task-management/components/AddTaskModal.jsx:22 | a text of Basic Multilingual Plane characters has one code unit per character |
| Text.Utf16LengthOfEmoji | mastery/mastery/src/pages/task-management/components/AddTaskModal.jsx:22 | two astral characters have length 4 |
| Text.TrimEmptyIffAllSpace | mastery/mastery/src/pages/willpower-challenges/index.jsx:108 | `!s.trim()` holds iff the text is all white space |
| Text.SplitJoin | mastery/mastery/src/pages/task-management/index.jsx:159 | splitting a join of separator-free pieces gives the pieces back |
| Text.ReplaceFirstAt | mastery/mastery/src/pages/focus-hub/components/TaskSelector.jsx:73 | `replace` with a string pattern rewrites only its first occurrence |
| Seqs.FilterIsSubsequence | mastery/mastery/src/pages/task-management/index.jsx:192 | a filter keeps an order-preserving subsequence |
| Seqs.AddAllNoDuplicates | mastery/mastery/src/pages/task-management/index.jsx:204-208 | adding into a `Set` never duplicates an element |

## Left out

- The webhook `fetch` of the willpower page is not modelled. It is fire-and-forget network I/O whose errors are swallowed, and it never changes the page's state.
- Browser storage (`localStorage`) is not modelled as storage:
  - reads become constructor parameters (the saved level and history);
  - writes become fields (`authToken`, `storedUser`, the level, the history), read as their final values.
- Timers are not modelled as scheduling:
  - each `setInterval` becomes an explicit `Tick()` method;
  - the `setTimeout` that clears status messages is not modelled, so a status message stays until the next one;
  - the simulated network delays are not modelled.
- The `catch` branches of the login and sign-up submits are not modelled. Neither mock call can throw.
- Clock and locale:
  - `Date.now()` ids and timestamps enter as parameters (`id`, `now`);
  - `toLocaleDateString`, and the history's `formatDate`, are not modelled, because the browser's locale decides them;
  - TaskCard keeps only the `LocaleDate(time)` case for a date of a week or more.
- Floating point: percentages and bar widths are computed exactly, with integers, `real` and `RoundRatio`. Rounding of IEEE doubles is not captured.
  - ActiveChallenge.TimeColor decides `remaining / duration * 100 <= k` by cross-multiplication. Its case split stands in for dividing by zero (±Infinity, NaN).
  - SessionStats.BarsCapped: the weekly width is an exact `real`, not a double.
- Text.ToLower: lower-cases ASCII letters only, and a case-insensitive search compares only ASCII letters without regard to case.
- The JavaScript white-space set for `trim` and `\s` is written out by code point.
- RecentActivity.ActivityColor: the colour tables are Dafny maps, so inherited object keys such as `"constructor"` are not modelled. In JavaScript they would return a function rather than the default.
- WillpowerChallenges.ChallengeEngine.constructor takes the saved level as an integer. The source reads it with `parseFloat`, so a fractional or NaN stored level is not modelled.
- WillpowerChallenges.ChallengeEngine.constructor takes the saved history as it was kept. A record with a NaN duration would be stored by `JSON.stringify` as `null`. After a reload the source would then show "0m", where the model's ChallengeHistory.FormatDuration, applied to the kept NaN, gives "NaNm".
- TaskManagement.TaskBoard.DragEnd requires that the dragged id names a task of the source column. The drag library only hands over tasks it rendered from that column. Without this, `find` gives `undefined` and the board would receive a hole.
- TaskManagement.DragKeepsTasks requires that the task at the source index is the dragged task. Drag indices come from the filtered list but are spliced into the whole column, so with an active filter a drag can move the wrong task.
- FocusHub.FocusSession.DurationChange types its argument as a natural number, since its only callers pass positive seconds.
- Cleared errors: an error field cleared to `''` and an absent error are both `None`.
- LoginScreen.Session.HandleLogin: the stored user's `avatar` (always null) and its fixed statistics are not kept.
- The focus hub's `sessionStartTime`, the ambient sound and the volume are not modelled. None of them affects the timer logic.
- ChallengeHistory.ItemOf reads `challenge.aMCCChange || 0` as the record's change. Every record the engine writes carries +5 or -10, so the missing-field case never arises in the model.
- The clock and "Hh Mm" readers (`Clock.ReadClock`, `Durations.ReadHoursMinutes`) accept digits only. They serve as reference partners for non-negative counts.
- The built-in mock data of RecentActivity and of the dashboard are treated as inputs. Only QuickStats' daily figures enter the model as a constant.
- Rendering is not modelled: JSX, class names and icon sizes are absent, except where a label, colour or visibility condition is itself the logic.
- The unused `formatTime` of the focus hub (focus-hub/index.jsx:189-194) is the same expression as TimerDisplay's, so it is modelled once, by `TimerDisplay.FormatTime` over the `Clock` fields.
- SessionStats.IconColor rewrites "text-x" to "var(--color-x", with no closing parenthesis, as the source writes it. The model keeps the text as it is and claims no intended form.
- Not modelled at all: the dashboard page, the motivational messages, the aMCC level visualisation (canvas and easing), navigation and route guards, and the presentational components. None of them holds logic beyond rendering.
