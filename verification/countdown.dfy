/**
 * The `Countdown` component's state machine. React state and the interval handle
 * become one immutable record; every handler, the interval callback and the
 * unmount cleanup become pure transitions over it.
 *
 * Two pieces of React behaviour are modelled explicitly:
 *  - the effect keyed on `[isActive, isPaused]` (`Commit`): whenever a transition
 *    changes that pair, the previous effect's cleanup clears the interval named by
 *    `timerRef`, and then, if the timer is active and not paused, a fresh interval
 *    is stored in `timerRef`;
 *  - the interval handle: `ticking` says `timerRef` names a live interval, and
 *    `orphaned` counts live intervals that `timerRef` no longer names (they could
 *    never be cleared again).
 */
module Countdown {
  import opened Optional

  /**
   * The duration input field. It is set to `Number(value) || ""`: zero and NaN
   * become the empty string, any other number (negative ones included) is kept.
   */
  datatype Input = Empty | Num(n: int)

  predicate ValidInput(d: Input) {
    d.Num? ==> d.n != 0
  }

  /** The background gradients the component switches between. */
  datatype Theme =
    | DefaultBg    // initial pink theme
    | RunningBg    // set by Start
    | ResetBg      // set by Reset
    | CompletedBg  // set when the countdown reaches zero
    | DarkPinkBg | DarkBlueBg | BlackBg  // the three theme buttons

  datatype State = State(
    duration: Input,
    timeLeft: int,
    isActive: bool,
    isPaused: bool,
    bgColor: Theme,
    ticking: bool,
    orphaned: nat,
    mounted: bool)

  /** Number of live intervals, each of which will keep delivering ticks. */
  function Outstanding(s: State): nat {
    s.orphaned + if s.ticking then 1 else 0
  }

  /** The state on mount: empty input, 00:00, neither active nor paused, no interval. */
  function Init(): (s: State)
    ensures Outstanding(s) == 0 && s.mounted
    ensures s.duration == Empty && s.timeLeft == 0
    ensures !s.isActive && !s.isPaused && s.bgColor == DefaultBg
  {
    State(Empty, 0, false, false, DefaultBg, false, 0, true)
  }

  // ---------------------------------------------------------------------------
  // The interval handle and the effect

  /** `clearInterval(timerRef.current)`: the interval `timerRef` names stops. */
  function ClearRef(s: State): (r: State)
    ensures !r.ticking
    ensures Outstanding(r) == s.orphaned
    ensures r.(ticking := s.ticking) == s
  {
    s.(ticking := false)
  }

  /**
   * `timerRef.current = setInterval(...)`: a new interval is named by `timerRef`;
   * one that was still live under the old name becomes orphaned.
   */
  function SetInterval(s: State): (r: State)
    ensures r.ticking
    ensures Outstanding(r) == Outstanding(s) + 1
    ensures r.(ticking := s.ticking, orphaned := s.orphaned) == s
  {
    s.(ticking := true, orphaned := s.orphaned + if s.ticking then 1 else 0)
  }

  /** The effect on `[isActive, isPaused]`, run after a transition from `before` to `after`. */
  function Commit(before: State, after: State): (r: State)
    ensures r.(ticking := after.ticking, orphaned := after.orphaned) == after
    ensures r.orphaned == after.orphaned
    ensures (after.isActive, after.isPaused) == (before.isActive, before.isPaused) ==> r == after
    ensures (after.isActive, after.isPaused) != (before.isActive, before.isPaused) ==>
              r.ticking == (after.isActive && !after.isPaused)
  {
    if (after.isActive, after.isPaused) == (before.isActive, before.isPaused) then
      after
    else
      var cleaned := ClearRef(after);
      if after.isActive && !after.isPaused then SetInterval(cleaned) else cleaned
  }

  // ---------------------------------------------------------------------------
  // Transitions

  /** `handleDurationChange` with the input already read as a number (None for NaN). */
  function ChangeInput(s: State, parsed: Option<int>): (r: State)
    ensures ValidInput(r.duration)
    ensures r.duration.Num? <==> parsed.Some? && parsed.value != 0
    ensures r.duration.Num? ==> r.duration.n == parsed.value
    ensures r == s.(duration := r.duration)
  {
    var field := match parsed
      case None => Empty
      case Some(v) => if v == 0 then Empty else Num(v);
    s.(duration := field)
  }

  /**
   * `handleSetDuration`: a positive input becomes the time left and the timer
   * stops; anything else (empty, negative) changes nothing.
   */
  function SetDuration(s: State): (r: State)
    ensures s.duration.Num? && s.duration.n > 0 ==>
              r == s.(timeLeft := s.duration.n, isActive := false, isPaused := false, ticking := false)
    ensures !(s.duration.Num? && s.duration.n > 0) ==> r == s
  {
    match s.duration
    case Num(n) =>
      if n > 0 then
        Commit(s, ClearRef(s.(timeLeft := n, isActive := false, isPaused := false)))
      else
        s
    case Empty => s
  }

  /**
   * `handleStart`: with time left, the timer becomes active and unpaused and the
   * running theme is shown; with none, nothing happens. Coming from a stopped
   * timer it installs exactly one new interval without orphaning any.
   */
  function Start(s: State): (r: State)
    ensures s.timeLeft <= 0 ==> r == s
    ensures s.timeLeft > 0 ==>
              r.(ticking := s.ticking, orphaned := s.orphaned)
                == s.(isActive := true, isPaused := false, bgColor := RunningBg)
    ensures s.timeLeft > 0 && !s.isActive ==> r.ticking && Outstanding(r) == s.orphaned + 1
    ensures s.timeLeft > 0 && s.isActive && !s.isPaused ==> r.ticking == s.ticking
    ensures r.orphaned == s.orphaned
  {
    if s.timeLeft > 0 then
      Commit(s, s.(isActive := true, isPaused := false, bgColor := RunningBg))
    else
      s
  }

  /**
   * `handlePause`: an active timer becomes paused and its interval is cleared;
   * the time left and the theme stay as they were. Otherwise nothing happens.
   */
  function Pause(s: State): (r: State)
    ensures s.isActive ==> r == s.(isActive := false, isPaused := true, ticking := false)
    ensures !s.isActive ==> r == s
  {
    if s.isActive then
      Commit(s, ClearRef(s.(isActive := false, isPaused := true)))
    else
      s
  }

  /**
   * `handleReset`: from any state the timer stops, the reset theme is shown and
   * the time left is taken from the current input field (0 when it is empty).
   */
  function Reset(s: State): (r: State)
    ensures !r.isActive && !r.isPaused && !r.ticking && r.bgColor == ResetBg
    ensures r.timeLeft == match s.duration case Num(n) => n case Empty => 0
    ensures r.duration == s.duration && r.orphaned == s.orphaned && r.mounted == s.mounted
  {
    var restored := match s.duration case Num(n) => n case Empty => 0;
    Commit(s, ClearRef(s.(isActive := false, isPaused := false, timeLeft := restored, bgColor := ResetBg)))
  }

  /** `changeBackgroundTheme`: only the background changes. */
  function SetTheme(s: State, theme: Theme): (r: State)
    ensures r.bgColor == theme
    ensures r.(bgColor := s.bgColor) == s
  {
    Commit(s, s.(bgColor := theme))
  }

  /**
   * The interval callback: above one second it counts down by exactly one;
   * at one second or less it clears its interval, shows the completed theme and
   * leaves zero. `isActive` is not touched, so a completed timer stays active.
   */
  function Tick(s: State): (r: State)
    ensures s.timeLeft > 1 ==> r == s.(timeLeft := s.timeLeft - 1)
    ensures s.timeLeft <= 1 ==>
              r == s.(timeLeft := 0, ticking := false, bgColor := CompletedBg)
  {
    if s.timeLeft <= 1 then
      Commit(s, ClearRef(s).(timeLeft := 0, bgColor := CompletedBg))
    else
      Commit(s, s.(timeLeft := s.timeLeft - 1))
  }

  /** Unmounting runs the effect's cleanup: the interval `timerRef` names is cleared. */
  function Teardown(s: State): (r: State)
    ensures !r.ticking && !r.mounted
    ensures Outstanding(r) == s.orphaned
    ensures r.(ticking := s.ticking, mounted := s.mounted) == s
  {
    ClearRef(s).(mounted := false)
  }

  // ---------------------------------------------------------------------------
  // Events

  datatype Event =
    | InputChanged(parsed: Option<int>)
    | SetDurationClicked
    | StartClicked
    | PauseClicked
    | ResetClicked
    | ThemeClicked(theme: Theme)
    | IntervalFired
    | Unmounted

  /**
   * Which events can happen: user events only while mounted, Start only while
   * its button is enabled (`disabled={isActive}`), Pause only while its button is
   * enabled (`disabled={!isActive}`), the three theme buttons' themes, and a tick
   * only while some interval is live.
   */
  predicate Enabled(s: State, e: Event)
    ensures Enabled(s, e) && e != IntervalFired ==> s.mounted
    ensures e == IntervalFired ==> (Enabled(s, e) <==> Outstanding(s) > 0)
    ensures s.mounted && e == StartClicked ==> (Enabled(s, e) <==> !s.isActive)
    ensures s.mounted && e == PauseClicked ==> (Enabled(s, e) <==> s.isActive)
    ensures !s.mounted && Outstanding(s) == 0 ==> !Enabled(s, e)
  {
    match e
    case IntervalFired => Outstanding(s) > 0
    case StartClicked => s.mounted && !s.isActive
    case PauseClicked => s.mounted && s.isActive
    case ThemeClicked(t) => s.mounted && (t == DarkPinkBg || t == DarkBlueBg || t == BlackBg)
    case _ => s.mounted
  }

  function Step(s: State, e: Event): State
    requires Enabled(s, e)
  {
    match e
    case InputChanged(parsed) => ChangeInput(s, parsed)
    case SetDurationClicked => SetDuration(s)
    case StartClicked => Start(s)
    case PauseClicked => Pause(s)
    case ResetClicked => Reset(s)
    case ThemeClicked(t) => SetTheme(s, t)
    case IntervalFired => Tick(s)
    case Unmounted => Teardown(s)
  }

  /** Runs a sequence of events; None as soon as one of them cannot happen. */
  function Run(s: State, es: seq<Event>): Option<State>
    decreases |es|
  {
    if |es| == 0 then Some(s)
    else if !Enabled(s, es[0]) then None
    else Run(Step(s, es[0]), es[1..])
  }

  // ---------------------------------------------------------------------------
  // Invariant and the observable status

  /**
   * What every reachable state satisfies: never active and paused at once; a live
   * interval only while running with time left; no orphaned interval; and, while
   * mounted, an active timer without an interval has reached zero.
   */
  predicate Inv(s: State) {
    && ValidInput(s.duration)
    && !(s.isActive && s.isPaused)
    && (s.ticking ==> s.isActive && !s.isPaused && s.timeLeft > 0)
    && s.orphaned == 0
    && (s.mounted && s.isActive && !s.ticking ==> s.timeLeft == 0)
  }

  datatype Status = Idle | Running | Paused | Completed

  /** The status a user can read off the flags and the display. */
  function StatusOf(s: State): Status {
    if s.isPaused then Paused
    else if s.isActive then (if s.timeLeft > 0 then Running else Completed)
    else Idle
  }
}
