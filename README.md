# Timing core of the wellness app's Index page

The Index page (`src/pages/Index.tsx`) is a single React component. Almost all of it is static layout and catalogs. Its one piece of real behaviour is the timing state behind the meditation player and the breathing trainer, plus a few pure helpers that turn that state into text. This project models that state in Dafny and proves what the code does with it.

- **Meditation countdown** (`meditation.dfy`, module `Meditation`). The state cells are `meditationTimer` (minutes), `meditationSeconds` and `isPlaying`. `Timer` is their value, and the functions `Started`, `Ticked` and `Toggled` specify `startMeditation`, the one-second interval callback and `togglePlayPause`. `Scheduled` is the effect's guard: the interval exists exactly while the timer is playing and a counter is above zero. The class `MeditationTimer` holds the three cells, and its methods `Start`, `Tick` and `TogglePlayPause` are proved against those functions. The interval is an abstract `Tick`. `AfterTicks` applies it `k` times.
- **Breathing trainer** (`breathing.dfy`, module `Breathing`). `NextPhase` is the closure's inhale→hold→exhale→inhale advance, checked against the reference order `Cycle`. The class `BreathingTrainer` holds `isBreathingActive`, the displayed `breathPhase`, and one interval's closure-local phase. `HandleBreathingCycle` is the button handler. `Tick` is the four-second callback.
- **Helpers** (`formatting.dfy`, `sound.dfy`, `labels.dfy`). `FormatTime` is `formatTime`: JavaScript's `toString` on an integer, then `padStart(2, '0')`, joined by `':'`. `ParseTime` is its inverse, used to prove that nothing is lost. `ToggleSound` is the single-selection sound toggle. `CountdownLabel`, `StatusLabel` and `BreathLabel` are the page's label choices.

What the code does, as modelled here. Where the code departs from what an idealised timer would do, the model follows the code:

- A session of `d` minutes starts at `(d-1):59`. The interval delivers exactly `60*d-1` ticks and stops at `0:00`. There the effect's guard schedules no more ticks, so the callback's `setIsPlaying(false)` branch is never reached. `isPlaying` stays `true`, `togglePlayPause` does nothing at `0:00`, and the page shows the prompt "Выберите медитацию" next to the status "Практика идёт...". This holds until a new session starts (`Meditation.CountdownFromStart`, `Labels.FinishedSessionStillRunning`). An idealised timer would go idle after `60*d` ticks; this code keeps `isPlaying` true at `0:00`.
- `startMeditation` does not check its argument. With `d <= 0` it shows `(d-1):59`, counts the seconds down to `(d-1):00` and stops there, still playing (`Meditation.StartNonPositive`). A negative minute count is printed with its sign, for example `-1:59`.
- `handleBreathingCycle` returns the interval's cancel function from a click handler, and this return value is discarded. So an interval, once started, is never cleared, and it keeps writing `breathPhase` while the trainer is off. Switching the trainer back on starts a new interval whose local phase begins at inhale; it does not write `breathPhase`. In the model, which keeps only the newest interval, the displayed phase stays what it was until that interval's first tick, which shows "hold". In the code the older intervals are still live as well, so one of their ticks may arrive first and show whatever phase its own closure has reached. An idealised trainer would stop the cycle when switched off and restart it at inhale. `Breathing.Scenario` states this sequence for the model as verified assertions.

## Model

| member | source | states |
|---|---|---|
| `Formatting.NatToString` | src/pages/Index.tsx:80 | the decimal text of a non-negative integer is non-empty, all digits, has no leading zero, and is one character long exactly for values below 10 |
| `Formatting.IntToString` | src/pages/Index.tsx:80 | `toString` of an integer starts with '-' exactly when it is negative, and is all digits otherwise |
| `Formatting.NegativeToString` | src/pages/Index.tsx:80 | after the '-', the text of a negative integer is all digits and reads back as its magnitude |
| `Formatting.PadStart` | src/pages/Index.tsx:80 | `padStart(width, fill)` gives length max(\|s\|, width), keeps `s` as its suffix and fills everything before it with `fill` |
| `Formatting.FormatTime` | src/pages/Index.tsx:79-81 | `formatTime`: the padded decimal minutes, ':', the padded decimal seconds; its properties are stated by `FormatTimeRoundTrip`, `FormatTimeShape` and `FormatTimeNegativeMinutes` |
| `Formatting.ParseNatToString` | src/pages/Index.tsx:80 | reading the decimal text of `n` back gives `n` |
| `Formatting.FormatTimeRoundTrip` | src/pages/Index.tsx:79-81 | for all non-negative minutes and seconds, the formatted text reads back as exactly those two numbers |
| `Formatting.FormatTimeShape` | src/pages/Index.tsx:79-81 | for counters below 100 the text has five characters: two digits of the minutes, ':', two digits of the seconds, zero-padded |
| `Formatting.FormatTimeNegativeMinutes` | src/pages/Index.tsx:79-81 | a negative single-digit minute is printed as '-' and its digit, with no padding |
| `Formatting.FormatTimeExamples` | src/pages/Index.tsx:79-81 | `formatTime(9,59)` is "09:59", `formatTime(0,59)` is "00:59", `formatTime(8,59)` is "08:59" |
| `Meditation.Started` | src/pages/Index.tsx:64-68 | the started state keeps seconds in 0..59, is scheduled, and leaves `60*d-1` seconds; it has non-negative minutes when d >= 1 |
| `Meditation.Scheduled` | src/pages/Index.tsx:25 | the effect's guard: playing and a counter above zero; `PauseResume`, `ScheduledUntilOut` and `CountdownFromStart` state when it holds |
| `Meditation.Ticked` | src/pages/Index.tsx:27-35 | a scheduled tick keeps seconds in 0..59, keeps playing, takes exactly one second off and keeps the minutes non-negative; a tick at or below 0:00 stops playback with seconds 0 |
| `Meditation.Toggled` | src/pages/Index.tsx:70-73 | `togglePlayPause` on the state value; its properties are stated by `ToggleEffect`, `ToggleTwice` and `PauseResume` |
| `Meditation.CountsDown` | src/pages/Index.tsx:25-36 | from a playing state with non-negative counters, each of the next k ticks (k up to the seconds left) keeps playing, keeps the counters in range, takes off one second, and is scheduled while seconds remain |
| `Meditation.ScheduledUntilOut` | src/pages/Index.tsx:25-36 | every one of the first TotalSeconds ticks from such a state is scheduled and leaves exactly TotalSeconds-k |
| `Meditation.RunsOut` | src/pages/Index.tsx:25-36 | after exactly TotalSeconds ticks the state is 0:00 and still playing |
| `Meditation.CountdownFromStart` | src/pages/Index.tsx:25-36 | after start(d) with d >= 1, ticks 0..60d-2 are all scheduled with 60d-1-k seconds left; tick 60d-1 reaches (0, 0, playing), and at that state no tick is scheduled and a toggle changes nothing |
| `Meditation.SecondsRunDown` | src/pages/Index.tsx:27-34 | with minutes at or below zero, k ticks only take k seconds off and are scheduled while seconds remain |
| `Meditation.StartNonPositive` | src/pages/Index.tsx:25-68 | start(d) with d <= 0 gets 59 scheduled ticks and stops at (d-1):00, still playing, with nothing scheduled |
| `Meditation.ToggleEffect` | src/pages/Index.tsx:70-73 | at 0:00 a toggle leaves the state unchanged; otherwise it negates the flag and keeps the counters |
| `Meditation.ToggleTwice` | src/pages/Index.tsx:70-73 | two consecutive toggles restore the state |
| `Meditation.PauseResume` | src/pages/Index.tsx:70-73 | on a non-zero countdown, after a toggle the tick is scheduled exactly when the timer was paused |
| `Meditation.PauseResumeKeepsCountdown` | src/pages/Index.tsx:70-73 | pausing and resuming does not change the states the next k ticks reach |
| `Meditation.MeditationTimer.constructor` | src/pages/Index.tsx:17-19 | a new timer is (0, 0, not playing) |
| `Meditation.MeditationTimer.TickScheduled` | src/pages/Index.tsx:25 | the line-25 guard read from the three cells, i.e. `Scheduled(State())`; the methods' ensures state how Start, Tick and TogglePlayPause change it |
| `Meditation.MeditationTimer.Start` | src/pages/Index.tsx:64-68 | after `Start(d)` the state is `Started(d)`: scheduled, seconds in range, 60d-1 seconds left |
| `Meditation.MeditationTimer.Tick` | src/pages/Index.tsx:26-35 | the new state is `Ticked` of the old one; seconds stay in 0..59; a scheduled tick keeps playing and takes exactly one second off |
| `Meditation.MeditationTimer.TogglePlayPause` | src/pages/Index.tsx:70-73 | the counters are unchanged; the flag is kept at 0:00 and negated otherwise |
| `Breathing.NextPhase` | src/pages/Index.tsx:55-57 | the advance never returns its argument; the full mapping is stated by `NextPhaseFollowsCycle` |
| `Breathing.NextPhaseFollowsCycle` | src/pages/Index.tsx:55-57 | the advance moves each phase one place on in the order inhale, hold, exhale, wrapping around |
| `Breathing.ThreeAdvancesIdentity` | src/pages/Index.tsx:55-57 | three advances are the identity |
| `Breathing.NextPhaseInjective` | src/pages/Index.tsx:55-57 | distinct phases advance to distinct phases |
| `Breathing.AdvancePeriodic` | src/pages/Index.tsx:54-59 | k advances equal k mod 3 advances |
| `Breathing.AdvanceFromInhale` | src/pages/Index.tsx:53-59 | k advances from inhale give the (k mod 3)-th phase of the cycle |
| `Breathing.BreathingTrainer.constructor` | src/pages/Index.tsx:14-15 | a new trainer is inactive, shows inhale and has no interval |
| `Breathing.BreathingTrainer.HandleBreathingCycle` | src/pages/Index.tsx:50-61 | the active flag is negated; only when it was off does a new interval start with local phase inhale; the displayed phase is unchanged; switching off leaves the interval running |
| `Breathing.BreathingTrainer.Tick` | src/pages/Index.tsx:54-59 | the local phase advances once and is displayed; after k ticks since the interval started, the display is the (k mod 3)-th phase of the cycle, whatever the active flag |
| `Sound.ToggleSound` | src/pages/Index.tsx:75-77 | the result is null exactly when the index was the active one; otherwise it is that index |
| `Sound.SelectReplaces` | src/pages/Index.tsx:75-77 | selecting a sound while another plays replaces it, so at most one is active |
| `Sound.ToggleTwice` | src/pages/Index.tsx:75-77 | pressing the same sound twice returns to it if it was active and to null otherwise |
| `Sound.ToggleTwiceFromNone` | src/pages/Index.tsx:75-77 | from null, toggling one index twice returns to null |
| `Labels.CountdownLabel` | src/pages/Index.tsx:257-260 | the heading: the formatted time while a counter is above zero, else the prompt; its properties are stated by `CountdownLabelShowsTime`, `SessionExamples` and `FinishedSessionStillRunning` |
| `Labels.StatusLabel` | src/pages/Index.tsx:263 | the status line chosen by `isPlaying` alone; `StatusLabelDistinguishes` states that its two texts tell playing from stopped, and `FinishedSessionStillRunning` is the end-of-session case |
| `Labels.StatusLabelDistinguishes` | src/pages/Index.tsx:263 | two flags give the same status text exactly when they are equal, and the text is one of the two status strings |
| `Labels.BreathLabel` | src/pages/Index.tsx:316-321 | the word in the breathing circle chosen by the active flag and the phase; its properties are stated by `BreathLabelRoundTrip` |
| `Labels.CountdownLabelShowsTime` | src/pages/Index.tsx:257-260 | for non-negative counters the heading holds a readable time exactly when a counter is above zero, and that time is the counters |
| `Labels.SessionExamples` | src/pages/Index.tsx:257-260 | start(1) shows "00:59"; start(10) shows "09:59", and 60 ticks later "08:59" |
| `Labels.FinishedSessionStillRunning` | src/pages/Index.tsx:257-263 | once a session of d >= 1 minutes has run out, the heading shows the prompt while the status line still says the practice is running |
| `Labels.BreathLabelRoundTrip` | src/pages/Index.tsx:316-321 | an inactive trainer shows "Готовы?" whatever the phase; an active one shows a word from which the phase is read back |

## Left out

- Rendering, layout and the UI components (`Card`, `Tabs`, `Slider`, `Badge`, `Icon`, `Progress`): these are presentation and calls into libraries outside the component.
- The static catalogs (moods, meditations, sounds, breathing techniques, journal, statistics, sleep tips, prices): these are data only. `Start` takes any integer duration instead of a catalog entry.
- The progress bar value `((m*60+s)/(20*60))*100`: this is floating-point arithmetic.
- Numbers: the state cells are JavaScript numbers (doubles), modelled as exact integers. This is faithful below 2^53, and the catalog's durations are 10 to 20 minutes. Above 2^53 `d - 1` and `t - 1` round and `toString` switches to exponent notation from 1e21; neither is modelled, and non-integer durations are not modelled either.
- Real time: `setInterval`/`clearInterval`, the 1000 ms and 4000 ms periods, and the order in which React re-runs effects and cleans them up. Ticks are abstract. The meditation tick is assumed to read the current minutes: the effect re-runs after every change, so the closure captures the value of the latest render.
- Several breathing intervals alive at once: each activation starts a new, never-cleared interval, and all of them write `breathPhase`. Modelling the interleaving of several streams is concurrency. The model keeps only the interval started last.
- React development-mode double invocation of state updaters: this could apply the nested minute decrement twice and is outside the production behaviour.
- `activeTab`, `selectedMood` and `showTrialModal`: these are plain view-state setters with no logic.
