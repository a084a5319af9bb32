# SmokeAlert countdown timer — a Dafny model

SmokeAlert is a small desktop reminder. The user enters an interval in seconds and presses
start. A one-second callback then counts the remaining time down. When the count runs out,
an alarm sound plays and the countdown starts over. A stop button halts it, and a pin button
keeps the window above all others.

This project models the controller class `SmokeAlertApp` as an immutable state record with
pure transition functions (module `SmokeAlert`, file `smoke_alert.dfy`). It proves properties
of single handlers and of whole event sequences (module `SmokeAlertProofs`, file
`smoke_alert_proofs.dfy`).

The state (`SmokeAlert.App`) has these fields:

- `interval`: the integer the interval entry currently yields (55 when the window opens).
- `running`: the timer's running flag.
- `remaining`: the remaining-seconds counter.
- `topmost`: the always-on-top flag.
- `shown`, `startEnabled`, `stopEnabled`, `pinCaption`: the widget state the controller sets
  explicitly. These are the remaining-time label, the enabled state of the start and stop
  buttons, and the caption of the pin button.

Every user action and every scheduled tick is an `Event`. `Handle` dispatches one event, and
`Run` folds a sequence of events. A tick's alarm is the `alert` output, which `Run` counts.
A refused start produces a `Notice` (already running, or interval not positive) in place of
the message box.

The widget fields are state, not derived values, because the source writes them at particular
moments. In particular, `timer_tick` refreshes the label *before* reloading the counter
(main.py:97-101). After an alert tick, the label therefore shows `0` (or less) while the
counter already holds the next interval. Because of this, the label is not a pure function
of the running flag and the counter. The invariant `Consistent` says what does hold: the
label shows a number exactly while running, and that number is either the counter or a
non-positive value.

A tick reloads the counter from the interval the entry yields at reload time, not the value
captured at start (main.py:101). A start refuses an interval of 0, but an interval edited to 0
while the timer runs is accepted at the next reload. From then on, every tick fires an alert.
The counter can then be zero or negative, although only positive values are ever loaded
at start.

## Model

| member | source | states |
|---|---|---|
| SmokeAlert.Init | main.py:40-43 | The window opens stopped and unpinned, with interval 55, counter 0 and label "--", and its widgets agree with that state |
| SmokeAlert.LabelFor | main.py:117-121 | The label shows a count exactly when the timer runs, and that count is the one it was given; otherwise it shows "--" |
| SmokeAlert.CaptionFor | main.py:126-129 | The pin button reads "unpin" exactly when the window is pinned |
| SmokeAlert.Start | main.py:69-85 | A start while running gives the "already running" notice and changes nothing. A start with interval ≤ 0 gives the "must be positive" notice and changes nothing. Otherwise the timer runs, the counter equals the positive interval, the label shows it, start is disabled and stop is enabled. Interval and pin state are never touched |
| SmokeAlert.Stop | main.py:87-93 | From any state, the timer is stopped, the label shows "--", start is enabled and stop is disabled. The counter, interval and pin state are unchanged |
| SmokeAlert.Tick | main.py:95-102 | A tick while stopped is a no-op with no alert. While running, a tick alerts exactly when the counter was ≤ 1; otherwise the counter drops by exactly 1. After an alert, the counter is reloaded with the current interval. The label shows the decremented count, and the interval, buttons and pin state are unchanged |
| SmokeAlert.ToggleTopmost | main.py:123-129 | The pinned flag is negated, the caption follows the new flag, and nothing else changes |
| SmokeAlert.SetInterval | main.py:54 | Editing the entry changes the interval to the new value and nothing else |
| SmokeAlert.Handle | main.py:59-67 | Every button press and tick keeps the widgets consistent with the timer state. Only ticks alert, and only a start can be refused, which leaves the state unchanged |
| SmokeAlert.Run | main.py:132-135 | Over any event sequence, the widgets stay consistent with the timer state, and there are at most as many alerts and notices as events |
| SmokeAlertProofs.StopIdempotent | main.py:87-93 | Stopping twice has the same effect as stopping once |
| SmokeAlertProofs.StopUndoesStart | main.py:79-93 | Stop after an accepted start restores the prior state, except that the counter keeps the loaded interval |
| SmokeAlertProofs.ToggleTwiceIsIdentity | main.py:123-129 | From any consistent state (every reachable one), toggling always-on-top twice restores the whole state, caption included |
| SmokeAlertProofs.StepKeepsSteady | main.py:79-101 | Every event keeps "running implies 1 ≤ counter ≤ interval", with one exception: editing the interval while running to a value below the counter breaks it |
| SmokeAlertProofs.LabelLagsReloadOnAlert | main.py:97-101 | After the alert tick, the label shows 0 while the counter holds the reloaded interval |
| SmokeAlertProofs.RunKeepsSteady | main.py:79-101 | With no interval edits, "running implies 1 ≤ counter ≤ interval" holds after any sequence of events |
| SmokeAlertProofs.StoppedIgnoresTicks | main.py:95-96 | Any number of ticks on a stopped timer fire no alert and change nothing |
| SmokeAlertProofs.StopSilencesTicks | main.py:87-96 | After stop, ticks fire no alerts and leave the stopped state as it is |
| SmokeAlertProofs.CountdownClosedForm | main.py:95-102 | Start from a running state with 1 ≤ counter ≤ interval. Count the ticks already spent in the current interval plus k new ticks, and write the total as q whole intervals and s extra ticks (0 ≤ s < interval). Then the k ticks fire exactly q alerts and leave interval − s on the counter |
| SmokeAlertProofs.OneAlertPerInterval | main.py:97-101 | Any `interval` consecutive ticks of such a timer fire exactly one alert and bring the counter back to where it was |
| SmokeAlertProofs.StartThenTicks | main.py:79-101 | A successful start followed by k ticks fires ⌊k / interval⌋ alerts |
| SmokeAlertProofs.NonPositiveIntervalAlertsEveryTick | main.py:99-101 | Once the interval has been edited to ≤ 0 and the counter is spent, every tick alerts and reloads the non-positive interval |
| SmokeAlertProofs.NonPositiveIntervalAlertsAfterCountdown | main.py:97-101 | The interval is edited to ≤ 0 while r ≥ 1 ticks remain. The countdown in progress still finishes, and from then on every tick alerts: k ≥ r ticks fire exactly k − r + 1 alerts and leave the non-positive interval on the counter |
| SmokeAlertProofs.ZeroIntervalRefusedAtStart | main.py:74-77 | Starting after the interval is edited to 0 is refused with the "must be positive" notice |
| SmokeAlertProofs.ZeroIntervalReloadedWhileRunning | main.py:79-101 | The same 0, edited in while running, is reloaded: interval 2, start, edit to 0, then four ticks fire three alerts |

## Left out

- Widget construction, fonts, styling and theming (main.py:20-26, 48-67) are GUI plumbing. Only the widget state the handlers set is modelled.
- `root.after` / `after_cancel` scheduling (main.py:85, 92, 102) is not modelled. `TickFired` is an environment event that can arrive at any point, and every result about ticks (`CountdownClosedForm`, `OneAlertPerInterval`, `StartThenTicks`, the non-positive-interval lemmas) counts ticks, not seconds. The source keeps a single one-second tick chain: it schedules one callback at start (main.py:85), cancels the pending one at stop (main.py:92), and re-arms only while running (main.py:102). That is what makes one tick one second, and the model does not represent it. For example, the model allows a stop, a start and two ticks back to back, which the source would spread over two seconds.
- The `play_sound` thread, `simpleaudio` playback, its 0.1 s polling of the running flag and its error dialogs (main.py:100, 104-115) are concurrency and a foreign audio library. Each alert is only the `alert` output of a tick.
- Icon loading (main.py:27-38) and `get_resource_path` (main.py:13-16) are filesystem and environment lookups.
- A non-numeric entry makes `IntVar.get()` raise, and that error path is not modelled. A fractional entry does not raise: `IntVar.get()` falls back to converting the text as a float and truncating it toward zero, so "0.9" yields 0. `SetInterval` receives the integer after this conversion, and the conversion itself is not modelled. Python integers are unbounded, and so are Dafny's `int`s.
- The window attribute `-topmost` (main.py:125) always equals the `topmost` field, so it is not a separate field.
