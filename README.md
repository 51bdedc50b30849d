# Tennis training interval trainer: session state machine

This project models the training session of a browser interval trainer. The
trainer emits a signal (flash, beep, vibration) every *signal interval*. Every
*k*-th signal it also shows a left/right arrow, which counts as one repetition.
It stops by itself once the configured number of repetitions is reached. The
page script keeps the session in module-level variables. Three pieces of code
change them:

- `startTraining` validates the inputs, resets the counters, arms the periodic
  timer and emits the first signal at once;
- the timer's tick callback counts signals, shows arrows and stops the session
  at the target;
- `stopTraining` is an idempotent teardown.

A `beforeunload` listener asks for confirmation before leaving the page while
a session runs.

Two modules:

- `Cadence` (`cadence.dfy`) holds the pure arithmetic of the schedule:
  - `Round` is `Math.round(a / b)` for positive integer milliseconds, computed
    as `(2a + b) / (2b)`;
  - `ArrowsFired(c, k)` is the number of arrows shown once the signal count has
    reached `c`;
  - `CompletionCount(k, reps)` is the signal on which the session completes.
- `Training` (`training.dfy`) holds class `Trainer`, whose fields are the
  script's globals. `isRunning`, `signalCount`, `arrowCount`,
  `currentRepetition`, `totalRepetitions` and `arrowIntervalValue` keep the
  source's names. `signalInterval` is the timer handle, and `audioOpen` says
  whether an audio context is held. Its methods are `Start`, `Tick` (one
  firing of the timer), `Stop` and `OnBeforeUnload`. The timer handle is an
  `Option<Timer>`. It carries the period and the signals-per-arrow count `k`
  that the tick closure captures, so `k` stays fixed for the whole session.
  The object invariant `Valid()` states:
  - while idle, no timer is armed and the counters are zero;
  - while running, `arrowCount == currentRepetition == ArrowsFired(signalCount, k)`;
  - while running, `0 <= currentRepetition < totalRepetitions`.

Three behaviours of the code are easy to miss:

- The code does not clamp `k` to at least 1; when the arrow interval is less
  than half the signal interval, `Math.round` gives 0, `signalCount % 0` is NaN, no
  arrow is ever shown and the session never completes on its own
  (`RoundIsZeroIff`, `ArrowsFired`'s second ensures, `Tick`, `SessionWithoutArrows`).
- The immediate first signal only sets `signalCount = 1` and never shows an
  arrow. With `k == 1` the first arrow therefore comes on the first timer
  firing (signal 2), never on the immediate signal. A 1000/1000/1 session ends on
  signal 2 (`ArrowsFiredClosedForm`, `CompletionCount`, `SessionOneSignalPerArrow`).
- `arrowIntervalValue` and `totalRepetitions` are assigned before validation,
  so a rejected start still overwrites them. The audio context is also created
  before validation, and a rejected start never closes it (`Start`).

## Model

| member | source | states |
|---|---|---|
| Cadence.Round | script.js:72 | the signals-per-arrow count is the nearest integer to arrow/signal, halves up: `2rb <= 2a + b < 2(r+1)b` |
| Cadence.RoundIsZeroIff | script.js:72 | the count is 0 exactly when the arrow interval is below half the signal interval |
| Cadence.ArrowsFired | script.js:77-83 | arrows shown by signal `c`: none by the immediate first signal, at most one per periodic signal, none at all when `k <= 0` (NaN remainder) |
| Cadence.ArrowsFiredClosedForm | script.js:80-83 | arrows fall on the multiples of `k`: `c / k` of them by signal `c`, and `c - 1` when `k == 1` because the first signal shows none |
| Cadence.CompletionCount | script.js:87-88 | the completing signal is never the immediate first one (`>= 2`) |
| Cadence.CompletesAt | script.js:80-88 | the target is reached at signal `c` if and only if `c >= CompletionCount(k, reps)` (`k * reps`, or `reps + 1` when `k == 1`) |
| Cadence.ArrowsBeforeCompletion | script.js:80-88 | before the completing signal fewer than `reps` arrows were shown; at it, exactly `reps` |
| Training.Trainer.constructor | script.js:1-9 | page-load state: idle, no timer, zero counters, no audio context |
| Training.Trainer.Start | script.js:23-96 | while running a no-op; otherwise stores arrow interval and target, and acquires audio if supported; rejects when any input is `<= 0` leaving flag, timer and counters untouched; on success running with `signalCount == 1`, `arrowCount == currentRepetition == 0` and a timer carrying `Round(arrow, signal)` |
| Training.Trainer.Tick | script.js:75-91 | count up by exactly 1; an arrow and one more repetition and arrow count exactly when the new count is a multiple of `k`; finishes exactly on the reps-th arrow, i.e. on signal `CompletionCount(k, reps)`, and then the session is stopped and reset; otherwise timer, flag and audio unchanged; invariant kept |
| Training.Trainer.Stop | script.js:170-213 | idle: no-op; running: flag false, timer cleared, all three counters zero, audio context released, configuration kept |
| Training.Trainer.OnBeforeUnload | script.js:216-221 | prevents unloading (default prevented, empty return value) if and only if a session is running, else leaves the event untouched |
| Training.SessionFourSignalsPerArrow | script.js:67-95 | 500/2000/3: arrows on signals 4, 8 and 12, the session ends on 12; the unload guard is active during the session and inactive after it |
| Training.SessionOneSignalPerArrow | script.js:75-95 | 1000/1000/1: no arrow on the immediate signal; the first firing shows the arrow and ends the session |
| Training.SessionRunsToCompletion | script.js:72-95 | for every valid start whose arrow interval is at least half the signal interval (`k >= 1`), repeated firings show exactly `repetitions` arrows and the session stops by itself on signal `CompletionCount(k, repetitions)` |
| Training.SessionWithoutArrows | script.js:72-80 | 3000/1000/1: `k == 0`; in 100 firings no arrow is shown and the session does not end (that no firing ever ends a session with `k == 0` is `Tick`'s completion clause) |

## Left out

- DOM and style updates in start and stop, the `alert`, the fullscreen classes and the repetition display text: presentation only. The alert is the `Rejected` outcome of `Start`.
- `triggerSignal` (flash, 200 ms un-flash timer, `navigator.vibrate`) and `playBeep` (Web Audio): host capabilities and wall-clock timing. A signal is an abstract event of `Start` and `Tick`.
- `showArrow` (random left/right choice, the floating `0.8 × interval` display timer, 300 ms fade, DOM container): an arrow is the abstract `arrowShown` event of `Tick`.
- Audio context resume and close calls and their swallowed failures: the context is only the flag `audioOpen`, and `audioSupported` says whether creating one succeeds.
- `arrowInterval`: the global is declared and cleared in `stopTraining` but never assigned a timer, so it is always null and is not modelled.
- Real `setInterval` scheduling and cancellation: each firing is an explicit `Tick` call, which requires a running session. The timer is armed exactly while running (`Valid`).
- `parseFloat`/`parseInt` and the seconds-to-milliseconds multiply: inputs are already-parsed integer milliseconds. NaN inputs, which slip past the `<= 0` checks in the page, and fractional milliseconds are not modelled.
- JavaScript number precision: counters are unbounded integers, while the page's numbers lose exactness beyond 2^53 signals.
