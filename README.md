# Egg timer countdown, modelled in Dafny

This project models the countdown of the egg timer screen
(`EggTimerViewController`): the table of three egg presets (soft 300 s,
medium 420 s, hard 720 s), the tap on an egg button that cancels any running
countdown and restarts it from the preset, the 0.1 s tick that counts down
and redraws the progress bar and the `MM:SS` time label, and the single
alarm-and-alert when the countdown reaches zero.

Time is measured in whole tenths of a second, so the presets are 3000, 4200
and 7200 tenths and a tick subtracts exactly 1. The scheduled `Timer` is a
boolean `timerActive`: `invalidate()` clears it, and a tick can only arrive
while it is set. The progress bar's value is kept as a fraction
`Progress(num, den)`; the controller's invariant `Valid()` says it always
equals `remainingTime / totalTime`, that `0 <= remainingTime <= totalTime`,
that the timer runs only while time remains, and that the label always shows
the remaining time.

Files:

- `Wrappers.dfy`: the `Option` type.
- `TimeLabel.dfy`: `updateTimeLabel`'s arithmetic and `%02d:%02d`
  formatting as pure functions, with a parser for labels as the partner
  against which the format is proved (the label shows exactly the truncated
  whole seconds, as minutes and a seconds field below 60).
- `EggTimer.dfy`: the preset table, the sender resolution of the tap handler,
  and the class `EggTimerController` holding `totalTime`, `remainingTime`,
  the timer flag, the progress value, the label text and a completion counter,
  with the tap and the tick as methods. `RunUntilAlarm` drives the repeating
  timer until it is invalidated and proves that a run with `n` tenths left
  ends after exactly `n` ticks; `BoilMediumEgg` proves the whole life of a
  medium egg: 4200 ticks, one alarm, label "00:00".

Points of the code's behaviour that the model keeps as they are:

- The code never rejects a duration: it only ever starts one of the three
  positive presets, so there is no error path for a bad duration.
- The code does not clamp `remainingTime` when the countdown ends. In exact
  tenths it reaches exactly 0 anyway, and the model does not clamp either.
- The code keeps no state beyond the optional timer and the two times.
- No tick arrives after `invalidate()`, so `UpdateTimer` requires
  `timerActive`.
- The label is not redrawn on completion. It still reads "00:00", left from
  the previous tick at 0.1 s remaining.

`TimeLabel.ParseLabel` is not part of the app: it is a reference reader of
`<digits>:<two digits>` labels, against which `Format` is proved in both
directions (`FormatMeaning` reads a printed label back; `FormatOnto` shows
that every five-character label with seconds below 60 is printed for some
time).

## Model

| member | source | states |
|---|---|---|
| `TimeLabel.Decimal` | EggTimerApp/EggTimerViewController.swift:217 | The numeral `%d` prints: at least one character, all digits, one digit exactly for values below 10, and no leading zero unless the value is 0. |
| `TimeLabel.ValueOfDecimal` | EggTimerApp/EggTimerViewController.swift:217 | Reading the printed numeral back gives the number printed. |
| `TimeLabel.Pad2` | EggTimerApp/EggTimerViewController.swift:217 | `%02d` gives only digits, at least two of them, exactly two precisely for values below 100, and a leading zero only as padding of a single digit. |
| `TimeLabel.Pad2Value` | EggTimerApp/EggTimerViewController.swift:217 | The zero-padded field still denotes the number printed. |
| `TimeLabel.Format` | EggTimerApp/EggTimerViewController.swift:214-218 | The label is a digit field, a colon, and a two-digit field. |
| `TimeLabel.FormatMeaning` | EggTimerApp/EggTimerViewController.swift:214-217 | The label parses, its seconds field is below 60, and minutes times 60 plus seconds is the truncated remaining time in whole seconds. |
| `TimeLabel.Pad2OfTwoDigits` | EggTimerApp/EggTimerViewController.swift:217 | `%02d` of the number a two-digit field denotes prints that field back unchanged. |
| `TimeLabel.FormatOfClock` | EggTimerApp/EggTimerViewController.swift:214-217 | For seconds below 60, the label for that many minutes and seconds is the two `%02d` fields joined by a colon. |
| `TimeLabel.FormatOnto` | EggTimerApp/EggTimerViewController.swift:214-217 | Every five-character label `MM:SS` whose seconds field is below 60 is exactly the label printed for MM minutes and SS seconds remaining. |
| `TimeLabel.FormatSameLabel` | EggTimerApp/EggTimerViewController.swift:214-217 | Two remaining times show the same label if and only if they agree in whole seconds. |
| `TimeLabel.FormatWidth` | EggTimerApp/EggTimerViewController.swift:217 | Below 100 minutes the label is exactly five characters, `MM:SS`. |
| `TimeLabel.PresetRangeMinutes` | EggTimerApp/EggTimerViewController.swift:214-217 | Any time up to the longest preset (720 s) shows a five-character label whose minutes field is at most 12. |
| `TimeLabel.FormatUnderOneSecond` | EggTimerApp/EggTimerViewController.swift:214-217 | Any time under one second shows "00:00". |
| `TimeLabel.FormatSoft` | EggTimerApp/EggTimerViewController.swift:214-217 | The soft preset, 300 s, shows "05:00". |
| `TimeLabel.FormatMedium` | EggTimerApp/EggTimerViewController.swift:214-217 | The medium preset, 420 s, shows "07:00". |
| `TimeLabel.FormatHard` | EggTimerApp/EggTimerViewController.swift:214-217 | The hard preset, 720 s, shows "12:00". |
| `TimeLabel.FormatSixtyFive` | EggTimerApp/EggTimerViewController.swift:214-217 | 65 s shows "01:05". |
| `TimeLabel.FormatExamples` | EggTimerApp/EggTimerViewController.swift:214-217 | 300 s shows "05:00", 420 s "07:00", 720 s "12:00", 65 s "01:05", 0.1 s and 0 s "00:00". |
| `EggTimer.EggType` | EggTimerApp/EggTimerViewController.swift:171-177 | A sender resolves to a preset key exactly when it is one of the three egg buttons. |
| `EggTimer.PresetSeconds` | EggTimerApp/EggTimerViewController.swift:179 | The lookup gives 300 s for "soft", 420 s for "medium", 720 s for "hard", and nothing for any other key. |
| `EggTimer.PresetTenths` | EggTimerApp/EggTimerViewController.swift:171-179 | A tap starts a run exactly when the sender is an egg button; every duration it starts is positive and a whole number of seconds. |
| `EggTimer.PresetTable` | EggTimerApp/EggTimerViewController.swift:6-10 | Soft starts 3000 tenths (300 s), medium 4200 (420 s), hard 7200 (720 s); any other sender starts nothing. |
| `EggTimer.EggTimerController.constructor` | EggTimerApp/EggTimerViewController.swift:13-15 | The loaded screen has no timer, zero total and remaining time, an empty bar, the label "00:00" and no alarm yet, and satisfies the invariant. |
| `EggTimer.EggTimerController.UpdateTimeLabel` | EggTimerApp/EggTimerViewController.swift:214-218 | The label becomes the format of the remaining time and nothing else changes. |
| `EggTimer.EggTimerController.EggButtonTapped` | EggTimerApp/EggTimerViewController.swift:168-197 | Any tap stops the running timer. For a non-egg sender nothing else changes. For an egg button, total and remaining both become the preset, the bar is exactly 1, the label shows the preset, and the timer runs with that many ticks left. The invariant is kept and no alarm fires. |
| `EggTimer.EggTimerController.UpdateTimer` | EggTimerApp/EggTimerViewController.swift:199-212 | A tick takes exactly one tenth off, leaves the total alone and brings the alarm one tick closer. The tick that reaches zero stops the timer and empties the bar. It fires the alarm exactly once and leaves the label unrefreshed at "00:00". Any other tick sets the bar to `remaining/total`, strictly between 0 and 1, and redraws the label. |
| `EggTimer.EggTimerController.RunUntilAlarm` | EggTimerApp/EggTimerViewController.swift:194-196 | The repeating timer fires exactly as many ticks as tenths remained, then stops with remaining time 0, one more alarm, an empty bar and "00:00". |
| `EggTimer.BoilMediumEgg` | EggTimerApp/EggTimerViewController.swift:189-211 | On a fresh screen a medium egg completes after exactly 4200 ticks, with one alarm and the label "00:00". |

## Left out

- View construction, styling, Auto Layout and the button's press animation (lines 18-166 and 181-187): layout only, no behaviour.
- Loading and playing the alarm sound and presenting the completion alert (lines 220-241): platform calls. Both are modelled only as the `completions` counter, incremented once at the tick that reaches zero.
- Run-loop scheduling of `Timer.scheduledTimer` and the `[weak self]` capture: the timer is the `timerActive` flag, and `RunUntilAlarm` stands for the repeating firing.
- Floating point: the repeated `-= 0.1` on a `Double` and the `Float(remainingTime / totalTime)` cast can drift, so a real run may take one tick more or less than ten per second and end at a tiny negative time. The model uses exact tenths and an exact fraction instead.
- `TimeLabel.Format` takes a non-negative time only: `Int(...)` of a negative remaining time is never formatted, because the label is redrawn only while time remains.
