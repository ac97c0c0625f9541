# Countdown timer: a verified model

This project models the `Countdown` React component of a one-page countdown timer.
The user types a number of seconds and presses Set Duration. Then Start, Pause and
Reset run the timer, and three buttons switch the background theme. While the timer
runs, a one-second interval counts the remaining time down. The display shows it as
`MM:SS`.

The model has three modules:

- `Countdown` (`countdown.dfy`). The component's state is one immutable record:
  - the input field (`Empty` or a non-zero `Num(n)`);
  - `timeLeft`, `isActive` and `isPaused`;
  - the background theme;
  - the interval handle.

  The handle has two parts. `ticking` says that `timerRef` names a live interval.
  `orphaned` counts live intervals that `timerRef` no longer names. Every handler,
  the interval callback and the unmount cleanup is a pure function on this record.
  The React effect keyed on `[isActive, isPaused]` is the function `Commit`. When a
  transition changes that pair, `Commit` clears the interval `timerRef` names. Then,
  if the timer is active and not paused, it stores a new interval in `timerRef`.
  `Enabled` says which events can occur: user events only while the component is
  mounted, Start only while its button is enabled, Pause only while its button is
  enabled, and a tick only while some interval is live. `Run` applies a sequence of
  events.
- `CountdownProperties` (`countdown_properties.dfy`). This module proves the
  invariant that every event preserves and the single-interval discipline. It also
  proves event sequences: `k` ticks count `k` seconds down; Pause followed by Start
  resumes; Reset restores the input; nothing fires after unmount.
- `TimeFormat` (`time_format.dfy`). This is `formatTime`. It builds the decimal
  numeral of a number, pads it with zeros to two characters, and joins minutes and
  seconds with a colon. `ParseClock` reads a display back. A lemma proves that
  parsing a display recovers the time.

`Optional` (`optional.dfy`) holds the `Option` type.

### Behaviour of the code worth knowing

- Pause leaves the background unchanged (`components/count-down.tsx:33-41`).
- Reset takes the time from the input field as it is now, not from the duration
  last applied (`components/count-down.tsx:46`). After the input is edited, Reset
  can therefore show more time than the last Set Duration did.
- A completed timer stays active (`components/count-down.tsx:61-64`): Start stays
  disabled and Pause stays enabled, so Pause gives a paused timer at 00:00
  (`PausedAtZeroReachable`), which Start cannot leave.
- The input keeps negative numbers (`components/count-down.tsx:84`), so Reset can
  make `timeLeft` negative. Set Duration and Start both ignore such a value.

## Model

| member | source | states |
|---|---|---|
| `Countdown.Init` | components/count-down.tsx:6-11 | On mount: the input is empty, the clock is at 0, the timer is neither active nor paused, the theme is the default and no interval is live |
| `Countdown.ClearRef` | components/count-down.tsx:19-21 | `clearInterval(timerRef.current)`: the interval `timerRef` names is no longer live, only orphaned intervals remain, and nothing else changes |
| `Countdown.SetInterval` | components/count-down.tsx:59-68 | `timerRef.current = setInterval(...)`: `timerRef` names a live interval and exactly one interval is added; one that was live under the old name is orphaned, never lost; nothing else changes |
| `Countdown.Enabled` | components/count-down.tsx:113-134 | User events need a mounted component; while mounted, Start can be pressed exactly when the timer is not active and Pause exactly when it is; a tick arrives exactly when some interval is live; after unmount with no interval live nothing can happen |
| `Countdown.Commit` | components/count-down.tsx:57-75 | The effect re-runs only when `isActive` or `isPaused` changes. It then leaves an interval exactly when the timer is active and not paused. It never orphans an interval and touches nothing else |
| `Countdown.ChangeInput` | components/count-down.tsx:83-85 | `Number(value) \|\| ""` as a field: a non-zero number is kept (negatives too), zero and NaN give empty, and nothing else changes |
| `Countdown.SetDuration` | components/count-down.tsx:13-23 | A positive input becomes `timeLeft`. The timer becomes neither active nor paused, and no interval stays live. The theme and the input are kept. An empty or non-positive input leaves the whole state unchanged |
| `Countdown.Start` | components/count-down.tsx:25-31 | With `timeLeft <= 0`: no change. Otherwise the timer becomes active and unpaused with the running theme, and `timeLeft` is kept. From a stopped timer this adds exactly one live interval and orphans none |
| `Countdown.Pause` | components/count-down.tsx:33-41 | An active timer becomes paused and not active, and its interval is cleared. `timeLeft` and the theme are kept. A timer that is not active is unchanged |
| `Countdown.Reset` | components/count-down.tsx:43-51 | From any state: not active, not paused, no interval, and the reset theme. `timeLeft` is `n` for the input `Num(n)` and 0 for an empty input |
| `Countdown.SetTheme` | components/count-down.tsx:53-55 | Only the background changes. The interval and all other fields are kept |
| `Countdown.Tick` | components/count-down.tsx:60-67 | Above 1: `timeLeft` drops by exactly 1 and nothing else changes. At 1 or below: `timeLeft` becomes 0, the interval is cleared and the completed theme is shown, while `isActive` is left as it was |
| `Countdown.Teardown` | components/count-down.tsx:70-74 | Unmount clears the interval `timerRef` names and changes nothing else. Only orphaned intervals could remain |
| `CountdownProperties.InitInv` | components/count-down.tsx:6-11 | The mounted initial state satisfies the invariant |
| `CountdownProperties.StepPreservesInv` | components/count-down.tsx:13-75 | Every event that can occur preserves the invariant. Never active and paused at once. A live interval implies active, not paused and `timeLeft > 0`. No interval is orphaned. While mounted, an active timer without an interval is at zero |
| `CountdownProperties.RunPreservesInv` | components/count-down.tsx:13-75 | Any sequence of events that can occur preserves the invariant |
| `CountdownProperties.ReachableInv` | components/count-down.tsx:6-75 | Every state reachable from mount satisfies the invariant |
| `CountdownProperties.SingleInterval` | components/count-down.tsx:57-75 | At most one interval is ever live. While mounted, one is live exactly when the timer is running |
| `CountdownProperties.RunAppend` | components/count-down.tsx:13-75 | Running two batches of events one after the other is the same as running them together |
| `CountdownProperties.StartInstallsOneInterval` | components/count-down.tsx:25-31 | Start on a stopped timer with time left gives a running timer with exactly one live interval and the same `timeLeft` |
| `CountdownProperties.StartAtZeroIsNoop` | components/count-down.tsx:26 | Start with nothing on the clock leaves the state, and so its status, unchanged |
| `CountdownProperties.TicksCountDown` | components/count-down.tsx:60-67 | On a running timer, each of the first `j < timeLeft` ticks can be delivered, and together they take off exactly `j` seconds and change nothing else |
| `CountdownProperties.CountdownCompletes` | components/count-down.tsx:60-67 | From `k > 0` seconds, exactly `k` ticks reach 0. The interval is then cleared and the completed theme shows, and `isActive` stays true |
| `CountdownProperties.NoTickAfterCompletion` | components/count-down.tsx:61-62 | A tick after those `k` cannot be delivered |
| `CountdownProperties.PauseThenStartResumes` | components/count-down.tsx:25-41 | Pause then Start on a running timer gives the same running timer with the running theme. Counting resumes from the paused `timeLeft`, not from the duration |
| `CountdownProperties.PauseAfterCompletion` | components/count-down.tsx:61-64 | A completed timer has Start disabled and Pause enabled. Pausing it gives a paused timer at 0, and Start leaves that unchanged |
| `CountdownProperties.ResetAfterPartialCountdown` | components/count-down.tsx:43-51 | Set Duration, Start, then fewer than `d` ticks, then Reset: the clock shows `d` again, and the timer is idle with no interval |
| `CountdownProperties.ResetUsesCurrentInput` | components/count-down.tsx:46 | Reset takes the time from the input as typed, even if it was never applied |
| `CountdownProperties.SetDurationIgnoresNonPositive` | components/count-down.tsx:14-15 | An empty, zero or negative input makes Set Duration a no-op |
| `CountdownProperties.MountSetStart` | components/count-down.tsx:13-31 | Typing `d > 0`, Set Duration and Start from mount gives a running timer with `d` seconds left and one interval |
| `CountdownProperties.FiveSecondCountdown` | components/count-down.tsx:57-68 | Five seconds set and started from mount: five ticks complete the countdown, and a sixth tick cannot be delivered |
| `CountdownProperties.PausedAtZeroReachable` | components/count-down.tsx:33-41 | A paused timer showing 0 can be reached from mount |
| `CountdownProperties.NothingAfterTeardown` | components/count-down.tsx:70-74 | After unmount no interval is live, and no event, not even a tick, can occur |
| `TimeFormat.Decimal` | components/count-down.tsx:80 | `String(n)`: a non-empty string of digits with no leading zero (except "0") that denotes `n` |
| `TimeFormat.Pad2` | components/count-down.tsx:80 | `padStart(2, "0")`: the result has at least two characters. It is the input with just enough zeros in front |
| `TimeFormat.Pad2Value` | components/count-down.tsx:80 | Padding keeps the string all digits and keeps the number it denotes |
| `TimeFormat.Field` | components/count-down.tsx:80 | A display field has at least two digits, exactly two below 100, and denotes `n`. It starts with '0' exactly when `n < 10`, and from 10 on it is the plain numeral with no padding |
| `TimeFormat.FormatTime` | components/count-down.tsx:77-81 | The display ends in `:` followed by two digits. The digits before the colon (at least two) denote `t / 60`. The two after it denote `t % 60` |
| `TimeFormat.FormatTimeFields` | components/count-down.tsx:77-81 | For any `t = m * 60 + s` with `s < 60`, the display is padded `m`, then `:`, then padded `s` |
| `TimeFormat.FormatParseRoundTrip` | components/count-down.tsx:77-81 | Reading the two fields back gives `minutes * 60 + seconds = t` |
| `TimeFormat.FormatInjective` | components/count-down.tsx:77-81 | Two different times never give the same display |
| `TimeFormat.FormatWidth` | components/count-down.tsx:78-80 | The display has five characters below 100 minutes; from then on it is the minutes numeral's length plus three, because minutes are not capped |
| `TimeFormat.FormatExampleMinuteAndFive` | components/count-down.tsx:77-81 | 65 seconds display as `01:05` |
| `TimeFormat.FormatExampleZero` | components/count-down.tsx:77-81 | 0 seconds display as `00:00` |
| `TimeFormat.FormatExampleOverAnHour` | components/count-down.tsx:77-81 | 3661 seconds display as `61:01` |

## Left out

- Rendering, CSS class strings and button markup (`components/count-down.tsx:87-165`)
  are not modelled. The themes are an enumeration. The buttons survive only as the
  enabling conditions in `Countdown.Enabled`: Start needs `!isActive` and Pause
  needs `isActive`. The three theme buttons offer dark pink, dark blue and black.
- Real time is not modelled: `setInterval` and `clearInterval` timing, and React's
  batching and scheduling. Each handler, with the effect it triggers, is one atomic
  transition. Each interval firing is one `IntervalFired` event.
- `Number()` parsing of the text is not modelled, and neither are fractional
  durations such as "2.5", which are floating point. `InputChanged` carries the
  value already read as an integer, with `None` for NaN.
- `TimeFormat.FormatTime` takes only non-negative times. JavaScript's `%` truncates
  toward zero, which differs for negative operands. A negative `timeLeft` arises
  only after a negative input and Reset.
- Countdown.Tick: `timeLeft` is an unbounded integer, while the source holds a
  JavaScript double. The number input accepts values such as `1e20`; from 2^53 on
  doubles are not exact, and `prevTime - 1` can round back to `prevTime`, so the
  source's countdown would not move. The model counts down exactly for every value.
- CountdownProperties.CountdownCompletes: exactly `k` ticks reach zero for every `k`;
  in the source this holds only while `k` is at most 2^53, for the reason above.
- TimeFormat.Decimal: gives the plain decimal numeral for every number, while
  JavaScript's `String` switches to exponent notation from 1e21 on, so huge minute
  counts would display differently in the source.
- In development builds React may call the state updater twice (strict mode). This
  is not modelled.
