/**
 * Properties of the `Countdown` state machine: the invariant every event keeps,
 * the single-interval discipline, and the event sequences a user can produce.
 */
module CountdownProperties {
  import opened Optional
  import opened Countdown

  /** `k` consecutive interval ticks. */
  function Ticks(k: nat): (es: seq<Event>)
    ensures |es| == k
    ensures forall i :: 0 <= i < k ==> es[i] == IntervalFired
  {
    seq(k, _ => IntervalFired)
  }

  // ---------------------------------------------------------------------------
  // The invariant

  lemma InitInv()
    ensures Inv(Init())
  {
  }

  lemma StepPreservesInv(s: State, e: Event)
    requires Inv(s) && Enabled(s, e)
    ensures Inv(Step(s, e))
  {
  }

  lemma {:induction false} RunPreservesInv(s: State, es: seq<Event>)
    requires Inv(s)
    requires Run(s, es).Some?
    ensures Inv(Run(s, es).value)
    decreases |es|
  {
    if |es| > 0 {
      StepPreservesInv(s, es[0]);
      RunPreservesInv(Step(s, es[0]), es[1..]);
    }
  }

  /** Every state reached from mount by events that could happen satisfies the invariant. */
  lemma ReachableInv(es: seq<Event>)
    requires Run(Init(), es).Some?
    ensures Inv(Run(Init(), es).value)
  {
    InitInv();
    RunPreservesInv(Init(), es);
  }

  /**
   * At most one interval is ever live, and while mounted one is live exactly
   * when the timer is running.
   */
  lemma SingleInterval(s: State)
    requires Inv(s)
    ensures Outstanding(s) <= 1
    ensures s.mounted ==> (Outstanding(s) == 1 <==> StatusOf(s) == Running)
  {
  }

  /** Running events in two batches is running them in one. */
  lemma {:induction false} RunAppend(s: State, a: seq<Event>, b: seq<Event>)
    ensures Run(s, a + b) == match Run(s, a) case None => None case Some(t) => Run(t, b)
    decreases |a|
  {
    if |a| > 0 {
      assert (a + b)[0] == a[0];
      assert (a + b)[1..] == a[1..] + b;
      if Enabled(s, a[0]) {
        RunAppend(Step(s, a[0]), a[1..], b);
      }
    } else {
      assert a + b == b;
    }
  }

  // ---------------------------------------------------------------------------
  // Starting

  /** Starting a stopped timer with time left leaves exactly one interval live. */
  lemma StartInstallsOneInterval(s: State)
    requires Inv(s) && s.mounted && !s.isActive && s.timeLeft > 0
    ensures Outstanding(Step(s, StartClicked)) == 1
    ensures StatusOf(Step(s, StartClicked)) == Running
    ensures Step(s, StartClicked).timeLeft == s.timeLeft
  {
  }

  /**
   * With nothing left on the clock Start does nothing, whatever the status. A
   * named special case of `Start`'s contract, kept as a scenario.
   */
  lemma StartAtZeroIsNoop(s: State)
    requires s.timeLeft == 0
    ensures Start(s) == s
    ensures StatusOf(Start(s)) == StatusOf(s)
  {
  }

  // ---------------------------------------------------------------------------
  // Counting down

  /** The first `j` ticks of a running timer each take off exactly one second. */
  lemma {:induction false} TicksCountDown(s: State, j: nat)
    requires s.ticking && j < s.timeLeft
    ensures Run(s, Ticks(j)) == Some(s.(timeLeft := s.timeLeft - j))
    decreases j
  {
    if j > 0 {
      var next := Tick(s);
      assert Enabled(s, IntervalFired);
      assert Ticks(j)[0] == IntervalFired;
      assert Ticks(j)[1..] == Ticks(j - 1);
      TicksCountDown(next, j - 1);
    } else {
      assert s.(timeLeft := s.timeLeft - 0) == s;
    }
  }

  /**
   * From a running timer with `k` seconds left, exactly `k` ticks reach zero:
   * the interval is gone, the completed theme shows, and the timer is still
   * marked active.
   */
  lemma CountdownCompletes(s: State)
    requires s.ticking && s.timeLeft > 0
    ensures Run(s, Ticks(s.timeLeft))
              == Some(s.(timeLeft := 0, ticking := false, bgColor := CompletedBg))
  {
    var k := s.timeLeft;
    var last := s.(timeLeft := 1);
    TicksCountDown(s, k - 1);
    assert Ticks(k) == Ticks(k - 1) + [IntervalFired];
    RunAppend(s, Ticks(k - 1), [IntervalFired]);
    assert Run(last, [IntervalFired]) == Run(Tick(last), []);
  }

  /** After those `k` ticks no further tick can be delivered. */
  lemma NoTickAfterCompletion(s: State)
    requires Inv(s) && s.ticking
    ensures Run(s, Ticks(s.timeLeft + 1)) == None
  {
    var k := s.timeLeft;
    CountdownCompletes(s);
    assert Ticks(k + 1) == Ticks(k) + [IntervalFired];
    RunAppend(s, Ticks(k), [IntervalFired]);
  }

  // ---------------------------------------------------------------------------
  // Pausing

  /**
   * Pause then Start on a running timer gives back the same running timer, with
   * the running theme: counting resumes from the paused time, not the duration.
   */
  lemma PauseThenStartResumes(s: State)
    requires Inv(s) && s.mounted && s.ticking
    ensures Run(s, [PauseClicked, StartClicked]) == Some(s.(bgColor := RunningBg))
  {
    var paused := Pause(s);
    assert [PauseClicked, StartClicked][1..] == [StartClicked];
    assert Run(paused, [StartClicked]) == Run(Start(paused), []);
  }

  /**
   * A completed timer is still active, so Start is disabled and Pause enabled;
   * pausing it gives a paused timer with nothing left, which Start cannot leave.
   */
  lemma PauseAfterCompletion(s: State)
    requires Inv(s) && s.mounted && StatusOf(s) == Completed
    ensures !Enabled(s, StartClicked) && Enabled(s, PauseClicked)
    ensures StatusOf(Pause(s)) == Paused && Pause(s).timeLeft == 0
    ensures Start(Pause(s)) == Pause(s)
  {
  }

  // ---------------------------------------------------------------------------
  // Setting and resetting

  /**
   * Set Duration, Start, `j` ticks short of the end, then Reset: the clock shows
   * the input duration again and the timer is idle with no interval.
   */
  lemma ResetAfterPartialCountdown(s: State, d: int, j: nat)
    requires Inv(s) && s.mounted && s.duration == Num(d) && 0 < d && j < d
    ensures var es := [SetDurationClicked, StartClicked] + Ticks(j) + [ResetClicked];
      && Run(s, es).Some?
      && Run(s, es).value.timeLeft == d
      && StatusOf(Run(s, es).value) == Idle
      && Outstanding(Run(s, es).value) == 0
  {
    var applied := SetDuration(s);
    var started := Start(applied);
    assert Run(s, [SetDurationClicked, StartClicked]) == Some(started) by {
      assert [SetDurationClicked, StartClicked][1..] == [StartClicked];
      assert Run(applied, [StartClicked]) == Run(started, []);
    }
    TicksCountDown(started, j);
    var counted := started.(timeLeft := d - j);
    RunAppend(s, [SetDurationClicked, StartClicked], Ticks(j));
    RunAppend(s, [SetDurationClicked, StartClicked] + Ticks(j), [ResetClicked]);
    assert Run(counted, [ResetClicked]) == Run(Reset(counted), []);
  }

  /** Reset reads the input field as it is now, not the duration last applied. */
  lemma ResetUsesCurrentInput(s: State, v: int)
    requires s.mounted && v != 0
    ensures Run(s, [InputChanged(Some(v)), ResetClicked]).Some?
    ensures Run(s, [InputChanged(Some(v)), ResetClicked]).value.timeLeft == v
  {
    var changed := ChangeInput(s, Some(v));
    assert [InputChanged(Some(v)), ResetClicked][1..] == [ResetClicked];
    assert Run(changed, [ResetClicked]) == Run(Reset(changed), []);
  }

  /**
   * A zero, negative or empty input leaves the whole state as it was. A named
   * special case of `SetDuration`'s contract, kept as a scenario.
   */
  lemma SetDurationIgnoresNonPositive(s: State)
    requires s.duration == Empty || s.duration.n <= 0
    ensures SetDuration(s) == s
  {
  }

  // ---------------------------------------------------------------------------
  // Scenarios from mount

  /** Typing `d`, Set Duration and Start, from mount: running with `d` seconds left. */
  lemma MountSetStart(d: int)
    requires d > 0
    ensures Run(Init(), [InputChanged(Some(d)), SetDurationClicked, StartClicked])
              == Some(State(Num(d), d, true, false, RunningBg, true, 0, true))
  {
    var es := [InputChanged(Some(d)), SetDurationClicked, StartClicked];
    var typed := ChangeInput(Init(), Some(d));
    var applied := SetDuration(typed);
    assert es[1..] == [SetDurationClicked, StartClicked];
    assert es[1..][1..] == [StartClicked];
    assert Run(applied, [StartClicked]) == Run(Start(applied), []);
  }

  /**
   * Five seconds set and started: five ticks complete the countdown and a sixth
   * cannot be delivered.
   */
  lemma FiveSecondCountdown()
    ensures var prefix := [InputChanged(Some(5)), SetDurationClicked, StartClicked];
      && Run(Init(), prefix + Ticks(5))
           == Some(State(Num(5), 0, true, false, CompletedBg, false, 0, true))
      && Run(Init(), prefix + Ticks(6)) == None
  {
    var prefix := [InputChanged(Some(5)), SetDurationClicked, StartClicked];
    var running := State(Num(5), 5, true, false, RunningBg, true, 0, true);
    MountSetStart(5);
    CountdownCompletes(running);
    RunAppend(Init(), prefix, Ticks(5));
    NoTickAfterCompletion(running);
    RunAppend(Init(), prefix, Ticks(6));
  }

  /**
   * A paused timer showing 00:00 is reachable: one second set and run out, then
   * Pause, which stays enabled because completion leaves the timer active.
   */
  lemma PausedAtZeroReachable()
    ensures var es := [InputChanged(Some(1)), SetDurationClicked, StartClicked, IntervalFired, PauseClicked];
      && Run(Init(), es).Some?
      && StatusOf(Run(Init(), es).value) == Paused
      && Run(Init(), es).value.timeLeft == 0
  {
    var prefix := [InputChanged(Some(1)), SetDurationClicked, StartClicked];
    var running := State(Num(1), 1, true, false, RunningBg, true, 0, true);
    var done := running.(timeLeft := 0, ticking := false, bgColor := CompletedBg);
    MountSetStart(1);
    CountdownCompletes(running);
    assert Ticks(1) == [IntervalFired];
    assert prefix + [IntervalFired, PauseClicked] == (prefix + Ticks(1)) + [PauseClicked];
    RunAppend(Init(), prefix, Ticks(1));
    RunAppend(Init(), prefix + Ticks(1), [PauseClicked]);
    assert Run(done, [PauseClicked]) == Run(Pause(done), []);
  }

  // ---------------------------------------------------------------------------
  // Unmounting

  /** After unmount no event, in particular no tick, can be delivered. */
  lemma NothingAfterTeardown(s: State, e: Event)
    requires Inv(s)
    ensures Outstanding(Teardown(s)) == 0
    ensures !Enabled(Teardown(s), e)
  {
  }
}
