// The user-button monitor: a debouncing state machine run every 10 ms over
// the switch pattern, which announces a debounced press of the user switch
// with the short-press beep and then waits for every switch to be released.

module UserButton {
  import opened Stopwatch

  /** BUTTUN_STATE_E. */
  datatype ButtonState =
    | InitButtonState
    | WaitForActiveSwitch
    | DebounceSwitch
    | ProcessActiveUserSwitch
    | ProcessActiveModeSwitch
    | WaitLonger
    | WaitForNoSwitches

  /** The switch pattern byte: bit 0 the user switch, bit 1 the mode switch. */
  type Pattern = bv8

  const UserSwitch: Pattern := 0x01
  const ModeSwitch: Pattern := 0x02

  /** time_for_func_to_trigger_ms after userButtonInit: release, short press, long press. */
  const ReleaseDebounceMs: Tick := 0
  const ShortPressMs: Tick := 50
  const LongPressMs: Tick := 1000

  /**
   * GetSwitchStatus: the mode-port button is reported on the user-switch bit;
   * the mode-switch bit is never set.
   */
  function SwitchStatus(modeButtonActive: bool): (r: Pattern)
    ensures r & UserSwitch != 0 <==> modeButtonActive
    ensures r & ModeSwitch == 0
    ensures r == 0 || r == UserSwitch
  {
    if modeButtonActive then UserSwitch else 0
  }

  /** The monitor's state: g_ButtonState, g_ButtonPattern and btn_mon_stopwatch. */
  datatype Monitor = Monitor(state: ButtonState, pattern: Pattern, watch: Watch)

  /** One pass of the monitor: its new state and whether it asked for the short-press beep. */
  datatype StepResult = StepResult(next: Monitor, beep: bool)

  /** One pass of UserButtonMonitorTask's loop with switch pattern `current` at time `now`. */
  function Stepped(m: Monitor, current: Pattern, now: Tick): StepResult
  {
    match m.state
    case InitButtonState =>
      StepResult(m.(state := WaitForActiveSwitch, watch := Stopped(m.watch)), false)
    case WaitForActiveSwitch =>
      if current != 0 then
        StepResult(m.(state := DebounceSwitch, pattern := current, watch := Started(m.watch, now)), false)
      else StepResult(m, false)
    case DebounceSwitch =>
      if current == m.pattern then
        if Elapsed(m.watch.startTime, now) >= ShortPressMs then
          var w := Zeroed(m.watch, now);
          if current & UserSwitch != 0 then
            StepResult(m.(state := ProcessActiveUserSwitch, watch := w), true)
          else if current & ModeSwitch != 0 then
            StepResult(m.(state := ProcessActiveModeSwitch, watch := w), false)
          else StepResult(m.(watch := w), false)
        else StepResult(m, false)
      else StepResult(m.(state := WaitForNoSwitches), false)
    case ProcessActiveUserSwitch =>
      StepResult(m.(state := WaitForNoSwitches), false)
    case ProcessActiveModeSwitch =>
      if current & ModeSwitch == 0 then StepResult(m.(state := WaitForNoSwitches), false)
      else StepResult(m, false)
    case WaitLonger =>
      StepResult(m, false)
    case WaitForNoSwitches =>
      if current != 0 then StepResult(m.(watch := Zeroed(m.watch, now)), false)
      else if Elapsed(m.watch.startTime, now) >= ReleaseDebounceMs then
        StepResult(m.(state := InitButtonState, watch := Stopped(m.watch)), false)
      else StepResult(m, false)
  }

  /**
   * What every reachable monitor satisfies: the saved pattern is one the
   * switches can report, the mode-switch state and the unused WAIT_LONGER
   * state are never entered, and a debounce runs on a started stopwatch with
   * the user switch saved.
   */
  predicate Inv(m: Monitor)
  {
    (m.pattern == 0 || m.pattern == UserSwitch) &&
    m.state != ProcessActiveModeSwitch && m.state != WaitLonger &&
    (m.state == DebounceSwitch ==> m.pattern == UserSwitch && m.watch.active)
  }

  /** The monitor after userButtonInit on the zero-initialised globals. */
  function Initial(modeButtonActive: bool, w: Watch): (m: Monitor)
    ensures Inv(m)
    ensures m.state == (if modeButtonActive then WaitForNoSwitches else InitButtonState)
  {
    Monitor(if SwitchStatus(modeButtonActive) != 0 then WaitForNoSwitches else InitButtonState, 0, w)
  }

  /** The invariant holds after every pass of the monitor. */
  lemma StepKeepsInv(m: Monitor, modeButtonActive: bool, now: Tick)
    requires Inv(m)
    ensures Inv(Stepped(m, SwitchStatus(modeButtonActive), now).next)
  {
  }

  /** IsModeSwitchActive. */
  function ModeSwitchActive(m: Monitor): bool
  {
    m.state == ProcessActiveModeSwitch
  }

  /** The mode switch is never reported active: no reported pattern carries its bit. */
  lemma ModeSwitchNeverActive(m: Monitor)
    requires Inv(m)
    ensures !ModeSwitchActive(m)
  {
  }

  /**
   * The short-press beep is asked for exactly when a debounce of the user
   * switch ends with the switch still held after at least 50 ms.
   */
  lemma BeepExactlyOnDebouncedPress(m: Monitor, modeButtonActive: bool, now: Tick)
    requires Inv(m)
    ensures Stepped(m, SwitchStatus(modeButtonActive), now).beep <==>
      m.state == DebounceSwitch && modeButtonActive && Elapsed(m.watch.startTime, now) >= ShortPressMs
    ensures Stepped(m, SwitchStatus(modeButtonActive), now).beep ==>
      Stepped(m, SwitchStatus(modeButtonActive), now).next.state == ProcessActiveUserSwitch
  {
  }

  /**
   * A press seen while waiting starts the debounce stopwatch, and a press
   * still held `hold` ms later, for `hold` between 50 ms and one counter
   * roll-over, is announced with the beep.
   */
  lemma HeldPressIsAnnounced(m: Monitor, start: Tick, hold: nat)
    requires Inv(m) && m.state == WaitForActiveSwitch
    requires ShortPressMs <= hold < TickModulus
    ensures var r1 := Stepped(m, SwitchStatus(true), start);
      var r2 := Stepped(r1.next, SwitchStatus(true), (start + hold) % TickModulus);
      !r1.beep && r1.next.state == DebounceSwitch && r2.beep && r2.next.state == ProcessActiveUserSwitch
  {
    ElapsedAcrossRollover(start, hold);
  }

  /** The monitor after a run of passes with the given switch inputs and times. */
  function Run(m: Monitor, inputs: seq<bool>, times: seq<Tick>): Monitor
    requires |inputs| == |times|
    decreases |inputs|
  {
    if inputs == [] then m
    else Run(Stepped(m, SwitchStatus(inputs[0]), times[0]).next, inputs[1..], times[1..])
  }

  /** Whether any pass of such a run asks for the beep. */
  function Beeps(m: Monitor, inputs: seq<bool>, times: seq<Tick>): bool
    requires |inputs| == |times|
    decreases |inputs|
  {
    if inputs == [] then false
    else
      var r := Stepped(m, SwitchStatus(inputs[0]), times[0]);
      r.beep || Beeps(r.next, inputs[1..], times[1..])
  }

  /**
   * Releasing every switch brings any reachable monitor back to waiting for
   * a press within three passes, without a beep.
   */
  lemma ReleaseReturnsToWaiting(m: Monitor, t0: Tick, t1: Tick, t2: Tick)
    requires Inv(m) && m.state != WaitForActiveSwitch
    ensures !Beeps(m, [false, false, false], [t0, t1, t2])
    ensures Run(m, [false, false, false], [t0, t1, t2]).state == WaitForActiveSwitch
  {
    var s0 := Stepped(m, 0, t0).next;
    var s1 := Stepped(s0, 0, t1).next;
    assert [false, false, false][1..] == [false, false] && [t0, t1, t2][1..] == [t1, t2];
    assert [false, false][1..] == [false] && [t1, t2][1..] == [t2];
    assert [false][1..] == [] && [t2][1..] == [];
  }

  /**
   * A switch already held at start-up (a stuck button) is not announced: the
   * monitor waits for the release whatever the time of each pass.
   */
  lemma {:induction false} StuckButtonIsNotAnnounced(w: Watch, times: seq<Tick>)
    ensures var inputs := seq(|times|, k => true);
      !Beeps(Initial(true, w), inputs, times) && Run(Initial(true, w), inputs, times).state == WaitForNoSwitches
    decreases |times|
  {
    var inputs := seq(|times|, k => true);
    if times != [] {
      var next := Stepped(Initial(true, w), UserSwitch, times[0]).next;
      assert next == Initial(true, Zeroed(w, times[0]));
      StuckButtonIsNotAnnounced(Zeroed(w, times[0]), times[1..]);
      assert inputs[1..] == seq(|times[1..]|, k => true);
    }
  }

  /** The monitor task's globals, and the stopwatch it runs on. */
  class ButtonMonitor {
    var state: ButtonState
    var pattern: Pattern
    const watch: StopWatch

    function Value(): Monitor
      reads this, watch
    {
      Monitor(state, pattern, watch.Value())
    }

    /** The file-scope initialisers: state 0, pattern 0, a stopped stopwatch at 0. */
    constructor ()
      ensures Value() == Monitor(InitButtonState, 0, Watch(0, false)) && fresh(watch)
    {
      state := InitButtonState;
      pattern := 0;
      watch := new StopWatch();
    }

    /** userButtonInit: start over, or wait for the release if a switch is already held. */
    method Init(modeButtonActive: bool)
      modifies this
      ensures Value() == Initial(modeButtonActive, old(watch.Value())).(pattern := old(pattern))
    {
      state := InitButtonState;
      if SwitchStatus(modeButtonActive) != 0 {
        state := WaitForNoSwitches;
      }
    }

    /** IsModeSwitchActive. */
    function IsModeSwitchActive(): (r: bool)
      reads this
      ensures r == ModeSwitchActive(Value())
    {
      state == ProcessActiveModeSwitch
    }

    /**
     * One pass of UserButtonMonitorTask's loop, `current` being the pattern
     * GetSwitchStatus returned for it; `beep` says whether the pass asked the
     * beeper for the short-press pattern.
     */
    method MonitorStep(clock: Clock, current: Pattern) returns (beep: bool)
      modifies this, watch
      ensures Value() == Stepped(old(Value()), current, clock.now).next
      ensures beep == Stepped(old(Value()), current, clock.now).beep
    {
      beep := false;
      if state == InitButtonState {
        watch.Stop();
        state := WaitForActiveSwitch;
      } else if state == WaitForActiveSwitch {
        if current != 0 {
          pattern := current;
          watch.Start(clock);
          state := DebounceSwitch;
        }
      } else if state == DebounceSwitch {
        if current == pattern {
          var elapsed := watch.TimeElapsed(clock, false);
          if elapsed >= ShortPressMs {
            watch.Zero(clock);
            if current & UserSwitch != 0 {
              beep := true;
              state := ProcessActiveUserSwitch;
            } else if current & ModeSwitch != 0 {
              state := ProcessActiveModeSwitch;
            }
          }
        } else {
          state := WaitForNoSwitches;
        }
      } else if state == ProcessActiveUserSwitch {
        state := WaitForNoSwitches;
      } else if state == ProcessActiveModeSwitch {
        if current & ModeSwitch == 0 {
          state := WaitForNoSwitches;
        }
      } else if state == WaitForNoSwitches {
        if current != 0 {
          watch.Zero(clock);
        } else {
          var elapsed := watch.TimeElapsed(clock, false);
          if elapsed >= ReleaseDebounceMs {
            state := InitButtonState;
            watch.Stop();
          }
        }
      }
    }
  }
}
