// The general output controller: every output line (an LED) has its own
// controller, which holds a list of states, each a list of on/off steps, and
// walks the current state's steps as time is reported to it. States have a
// priority, may run once ("one shot") and are swapped out by a test mode.

module GenOutCtrl {
  import opened Bytes
  import opened Wrappers

  /** GEN_OUT_CTRL_ALWAYS_IN_STATE_VAL: a phase of this length never expires. */
  const AlwaysInState: u16 := 0xFFFF
  /** GEN_OUT_CTRL_REPEAT_PATTERN_FOREVER_VAL. */
  const RepeatForever: byte := 0

  // GenOutCtrlId_t
  const IdForwardPadLed: nat := 0
  const IdLeftPadLed: nat := 1
  const IdRightPadLed: nat := 2
  const IdReversePadLed: nat := 3
  const IdPowerLed: nat := 4
  /** GEN_OUT_CTRL_ID_MAX: the number of controllers. */
  const NumIds: nat := 5

  // GenOutState_t
  const StateIdle: nat := 0
  const StatePowerLedOn: nat := 1
  const StatePowerLedOff: nat := 2
  const StateBluetoothOutput: nat := 3
  const StateNoOutput: nat := 4
  const StateModeActive: nat := 5
  const StateModeInactive: nat := 6
  const StateCtrlTest: nat := 7
  const StateBluetoothEnabled: nat := 8
  const StateBluetoothDisabled: nat := 9
  const StateForwardPadActive: nat := 10
  const StateForwardPadInactive: nat := 11
  const StateReversePadActive: nat := 12
  const StateReversePadInactive: nat := 13
  const StateLeftPadActive: nat := 14
  const StateLeftPadInactive: nat := 15
  const StateRightPadActive: nat := 16
  const StateRightPadInactive: nat := 17
  /** GEN_OUT_CTRL_STATE_MAX: the number of states, and the capacity of a controller's state list. */
  const StateMax: nat := 18

  /** GenOutCtrlStateStepDef_t: one on/off step of a state. */
  datatype Step = Step(onTime: u16, offTime: u16, numTimesToRun: byte)

  /** GEN_OUT_CTRL_END_OF_STATE, the step that ends every step list. */
  const EndOfState: Step := Step(AlwaysInState, AlwaysInState, RepeatForever)

  /** A step both of whose phases last forever marks the end of the list. */
  predicate IsEnd(s: Step)
  {
    s.onTime == AlwaysInState && s.offTime == AlwaysInState
  }

  /** A step list must be terminated by an end step. */
  predicate HasEnd(steps: seq<Step>)
  {
    exists e :: 0 <= e < |steps| && IsEnd(steps[e])
  }

  /** The position of the first end step. */
  function FirstEnd(steps: seq<Step>): (r: nat)
    requires HasEnd(steps)
    ensures r < |steps| && IsEnd(steps[r])
    ensures forall k :: 0 <= k < r ==> !IsEnd(steps[k])
  {
    if IsEnd(steps[0]) then 0
    else
      var e :| 0 <= e < |steps| && IsEnd(steps[e]);
      assert IsEnd(steps[1..][e - 1]);
      1 + FirstEnd(steps[1..])
  }

  /** OutCtrlrStateDef_t: a state a controller can be in. */
  datatype StateDef = StateDef(state: nat, oneShot: bool, priority: byte, steps: seq<Step>)

  /**
   * OutputCtrlrState_t without its id: the state pointers are positions in
   * `states` (None for NULL), `pin` is the level last driven on the output.
   */
  datatype Ctrl = Ctrl(
    testActive: bool,
    testCurr: Option<nat>,
    curr: Option<nat>,
    currIndex: nat,
    timeElapsed: u16,
    outputIsActive: bool,
    isActive: bool,
    states: seq<StateDef>,
    oneShotComplete: bool,
    numTimesRun: byte,
    pin: bool)

  /** InitControlData for one controller: no states, inactive, output off. */
  function Initial(): Ctrl
  {
    Ctrl(false, None, None, 0, 0, false, false, [], false, 0, false)
  }

  /** Whether a state is in a state list (IsStateDefined). */
  predicate Defined(states: seq<StateDef>, s: nat)
  {
    exists i :: 0 <= i < |states| && states[i].state == s
  }

  /** The first position of a state in the list (StateControlObject_Get), None when it is not there. */
  function Lookup(states: seq<StateDef>, s: nat): (r: Option<nat>)
    ensures r.Some? <==> Defined(states, s)
    ensures r.Some? ==> (r.value < |states| && states[r.value].state == s &&
      forall k :: 0 <= k < r.value ==> states[k].state != s)
  {
    if |states| == 0 then None
    else if states[|states| - 1].state == s && Lookup(states[..|states| - 1], s).None? then Some(|states| - 1)
    else
      var r := Lookup(states[..|states| - 1], s);
      if r.None? then
        assert forall i :: 0 <= i < |states| - 1 ==> states[i] == states[..|states| - 1][i];
        None
      else r
  }

  /** The state list is within capacity, and each state is terminated and defined once. */
  ghost predicate StatesOk(states: seq<StateDef>)
  {
    |states| <= StateMax &&
    (forall i :: 0 <= i < |states| ==> HasEnd(states[i].steps)) &&
    (forall i, j :: 0 <= i < j < |states| ==> states[i].state != states[j].state)
  }

  /** The state list is well formed and the state pointers point into it. */
  ghost predicate Structured(c: Ctrl)
  {
    StatesOk(c.states) &&
    (c.curr.Some? ==> c.curr.value < |c.states|) &&
    (c.testCurr.Some? ==> c.testCurr.value < |c.states|)
  }

  /** The steps of the current state. */
  function CurSteps(c: Ctrl): (r: seq<Step>)
    requires Structured(c) && c.curr.Some?
    ensures HasEnd(r)
  {
    c.states[c.curr.value].steps
  }

  /** The step index lies within the current state's list, at most at its end step. */
  ghost predicate IndexOk(c: Ctrl)
  {
    Structured(c) &&
    (c.curr.Some? ==> c.currIndex <= FirstEnd(CurSteps(c))) &&
    (c.curr.None? ==> c.currIndex == 0)
  }

  /**
   * The controller's invariant: an active output is at a step before the end
   * step; a controller not under timing control has its control data reset;
   * one under timing control drives the output line as it records it.
   */
  ghost predicate Inv(c: Ctrl)
  {
    IndexOk(c) &&
    (c.outputIsActive ==> c.curr.Some? && c.currIndex < FirstEnd(CurSteps(c))) &&
    (!c.isActive ==> c.currIndex == 0 && c.timeElapsed == 0 && !c.oneShotComplete &&
                     c.numTimesRun == 0 && !c.outputIsActive) &&
    (c.isActive ==> c.pin == c.outputIsActive)
  }

  /** A bank whose controllers keep the invariant keeps it when one of them is replaced by another that does. */
  lemma BankUpdateInv(before: seq<Ctrl>, after: seq<Ctrl>, id: nat, c: Ctrl)
    requires forall i :: 0 <= i < |before| ==> Inv(before[i])
    requires id < |before| && Inv(c) && after == before[id := c]
    ensures forall i :: 0 <= i < |after| ==> Inv(after[i])
  {
  }

  lemma InitialInv()
    ensures Inv(Initial())
  {
  }

  /** StateCtrlr_EndOfList: the current step is the end step. */
  function EndOfList(c: Ctrl): (r: bool)
    requires IndexOk(c)
    ensures r <==> c.curr.Some? && c.currIndex == FirstEnd(CurSteps(c))
  {
    c.curr.Some? && IsEnd(CurSteps(c)[c.currIndex])
  }

  /** ResetControlData: the step, time, one-shot flag and repeat count restart; an inactive controller turns its output off. */
  function Reset(c: Ctrl): Ctrl
  {
    var r := c.(currIndex := 0, timeElapsed := 0, oneShotComplete := false, numTimesRun := 0);
    if !c.isActive then r.(outputIsActive := false, pin := false) else r
  }

  /** The output driven on or off. */
  function Drive(c: Ctrl, on: bool): Ctrl
  {
    c.(outputIsActive := on, pin := on)
  }

  /** StateCtrlr_NextControlSubstep. */
  function NextSubstep(c: Ctrl): (r: Ctrl)
    requires IndexOk(c) && c.curr.Some?
    requires c.outputIsActive ==> c.currIndex < FirstEnd(CurSteps(c))
    ensures r.states == c.states && r.curr == c.curr && r.testCurr == c.testCurr
    ensures r.isActive == c.isActive && r.timeElapsed == c.timeElapsed && r.numTimesRun == c.numTimesRun
  {
    if c.outputIsActive then SubstepAfterOn(c) else SubstepAfterOff(c)
  }

  /**
   * The substep after an on phase: off, if the step has an off phase;
   * otherwise on to the next step (back to the first after the last), where
   * a one-shot state completes and any other drives the output by the new
   * step's on time.
   */
  function SubstepAfterOn(c: Ctrl): (r: Ctrl)
    requires IndexOk(c) && c.curr.Some? && c.currIndex < FirstEnd(CurSteps(c))
    ensures r.states == c.states && r.curr == c.curr && r.isActive == c.isActive
    ensures CurSteps(c)[c.currIndex].offTime > 0 ==> r == c.(outputIsActive := false, pin := false)
    ensures r.oneShotComplete != c.oneShotComplete ==> c.states[c.curr.value].oneShot && r.outputIsActive == c.outputIsActive
  {
    var st := c.states[c.curr.value];
    if st.steps[c.currIndex].offTime > 0 then Drive(c, false)
    else
      var c2 := AdvanceStep(c);
      if st.oneShot then c2.(oneShotComplete := true)
      else Drive(c2, st.steps[c2.currIndex].onTime > 0)
  }

  /** The step index moves on, back to the first step from the last one before the end step. */
  function AdvanceStep(c: Ctrl): (r: Ctrl)
    requires IndexOk(c) && c.curr.Some? && c.currIndex < FirstEnd(CurSteps(c))
    ensures r == c.(currIndex := r.currIndex) && IndexOk(r)
    ensures r.currIndex == if c.currIndex + 1 == FirstEnd(CurSteps(c)) then 0 else c.currIndex + 1
    ensures r.currIndex < FirstEnd(CurSteps(c))
  {
    var c1 := c.(currIndex := c.currIndex + 1);
    if EndOfList(c1) then c1.(currIndex := 0) else c1
  }

  /**
   * The substep after an off phase: at the end step the list restarts (and a
   * one-shot state completes); a running controller then drives the output
   * by the step's on time.
   */
  function SubstepAfterOff(c: Ctrl): (r: Ctrl)
    requires IndexOk(c) && c.curr.Some?
    ensures r.states == c.states && r.curr == c.curr && r.isActive == c.isActive
    ensures r.currIndex == if EndOfList(c) then 0 else c.currIndex
    ensures r.oneShotComplete != c.oneShotComplete ==> EndOfList(c) && c.states[c.curr.value].oneShot
  {
    var st := c.states[c.curr.value];
    var c1 := if EndOfList(c) then (if st.oneShot then c.(oneShotComplete := true) else c).(currIndex := 0) else c;
    if c1.isActive && !c1.oneShotComplete then Drive(c1, st.steps[c1.currIndex].onTime > 0)
    else c1
  }

  /** The precondition of the operations that follow the current state pointer. */
  predicate Running(c: Ctrl)
  {
    c.isActive && !c.oneShotComplete
  }

  /** GenOutCtrl_TickUpdate_ms: the elapsed time of the current phase, in 16-bit arithmetic. */
  function Tick(c: Ctrl, t: u16): (r: Ctrl)
    requires Inv(c) && (Running(c) ==> c.curr.Some?)
    ensures r.isActive == c.isActive && r.testActive == c.testActive && r.testCurr == c.testCurr
  {
    if !Running(c) then c
    else
      var step := CurSteps(c)[c.currIndex];
      var elapsed := Wrap16(c.timeElapsed + t);
      if c.outputIsActive then
        if elapsed >= step.onTime && step.onTime != AlwaysInState then NextSubstep(c.(timeElapsed := 0))
        else c.(timeElapsed := elapsed)
      else if elapsed >= step.offTime && step.offTime != AlwaysInState then
        var runs := Wrap8(c.numTimesRun + 1);
        if runs >= step.numTimesToRun then NextSubstep(c.(timeElapsed := 0, currIndex := c.currIndex + 1, numTimesRun := 0))
        else NextSubstep(c.(timeElapsed := 0, numTimesRun := runs))
      else c.(timeElapsed := elapsed)
  }

  /** GenOutCtrl_Start: whether it started, and the new controller. */
  /** The condition under which GenOutCtrl_Start acts: not yet under timing control, and not at the end step. */
  predicate CanStart(c: Ctrl)
    requires IndexOk(c)
  {
    !c.isActive && !EndOfList(c)
  }

  function Started(c: Ctrl): (r: (bool, Ctrl))
    requires IndexOk(c) && (c.isActive || c.curr.Some?)
    ensures r.0 == CanStart(c)
    ensures r.0 ==> r.1.isActive && r.1.states == c.states && r.1.curr == c.curr
    ensures !r.0 ==> r.1 == c
  {
    if CanStart(c) then (true, NextSubstep(Reset(c).(isActive := true)))
    else (false, c)
  }

  /** GenOutCtrl_Stop (which always reports success). */
  function Stopped(c: Ctrl): (r: Ctrl)
    ensures !r.isActive && r.states == c.states && r.curr == c.curr && r.testCurr == c.testCurr
    ensures r.testActive == c.testActive
  {
    if c.isActive then Reset(c.(isActive := false)) else c
  }

  /** The condition under which GenOutCtrl_StateSet acts. */
  predicate StateChangeAllowed(c: Ctrl, s: nat)
    requires Structured(c) && (Defined(c.states, s) ==> c.curr.Some?)
  {
    Defined(c.states, s) &&
    c.states[c.curr.value].priority <= c.states[Lookup(c.states, s).value].priority &&
    (c.states[c.curr.value].state != s || c.oneShotComplete)
  }

  /** GenOutCtrl_StateSet (which always reports success). */
  function Switched(c: Ctrl, s: nat): (r: Ctrl)
    requires Inv(c) && (Defined(c.states, s) ==> c.curr.Some?)
    ensures r.states == c.states && r.testActive == c.testActive && (r.isActive ==> c.isActive)
    ensures r.curr != c.curr ==> !c.testActive && r.curr == Lookup(c.states, s)
  {
    if !StateChangeAllowed(c, s) then c
    else if c.testActive then c.(testCurr := Lookup(c.states, s))
    else
      var c1 := Reset(c.(isActive := false)).(curr := Lookup(c.states, s));
      if !c.isActive then c1
      else if EndOfList(c1) then c1.(pin := false)
      else NextSubstep(c1.(isActive := true))
  }

  /** GenOutCtrl_TestModeSet (which always reports success). */
  function TestModeSwitched(c: Ctrl, makeActive: bool): (r: Ctrl)
    requires Inv(c)
    ensures r.testActive == makeActive && r.states == c.states && r.isActive == c.isActive
  {
    if c.testActive == makeActive then c
    else
      var c1 := Reset(c.(testActive := makeActive, isActive := false));
      var c2 := if makeActive then c1.(testCurr := c.curr, curr := Lookup(c.states, StateCtrlTest))
                else c1.(curr := c1.testCurr);
      if c.isActive then c2.(isActive := true) else c2
  }

  /** GenOutCtrl_OutputCtrlrIsActive. */
  function OutputCtrlrIsActive(c: Ctrl): (r: bool)
    requires Inv(c) && (Running(c) ==> c.curr.Some?)
    ensures r ==> Running(c) && c.curr.Some? && c.currIndex < FirstEnd(CurSteps(c))
  {
    Running(c) && CurSteps(c)[c.currIndex].offTime != AlwaysInState
  }

  /** GenOutCtrl_AddState: whether the state was added, and the new controller. */
  function Added(c: Ctrl, s: nat, oneShot: bool, priority: byte, steps: seq<Step>): (r: (bool, Ctrl))
    ensures |r.1.states| == |c.states| + (if r.0 then 1 else 0)
    ensures r.1.curr.Some? <==> c.curr.Some? || r.0
    ensures r.1.isActive == c.isActive && r.1.currIndex == c.currIndex
  {
    if Defined(c.states, s) || |c.states| >= StateMax then (false, c)
    else
      var c1 := c.(states := c.states + [StateDef(s, oneShot, priority, steps)]);
      if c.curr.None? then (true, c1.(curr := Some(|c.states|), testCurr := Some(|c.states|)))
      else (true, c1)
  }

  /** GenOutCtrl_SetActive / SetInactive / ToggleActiveState: manual control, refused under timing control. */
  function Manual(c: Ctrl, level: bool): (r: (bool, Ctrl))
    ensures r.0 <==> !c.isActive
    ensures r.1.isActive == c.isActive && r.1.states == c.states && r.1.curr == c.curr
    ensures r.0 ==> r.1.pin == level
  {
    if !c.isActive then (true, c.(pin := level)) else (false, c)
  }

  // ---------------------------------------------------------------------
  // The invariant is kept by every operation.

  /** NextSubstep, called with the controller under timing control, keeps the invariant. */
  lemma NextSubstepInv(c: Ctrl)
    requires IndexOk(c) && c.curr.Some? && c.isActive && c.pin == c.outputIsActive
    requires c.outputIsActive ==> c.currIndex < FirstEnd(CurSteps(c))
    requires 0 < FirstEnd(CurSteps(c))
    ensures Inv(NextSubstep(c)) && NextSubstep(c).isActive
  {
    if c.outputIsActive {
      SubstepAfterOnInv(c);
    } else {
      SubstepAfterOffInv(c);
    }
  }

  lemma SubstepAfterOnInv(c: Ctrl)
    requires IndexOk(c) && c.curr.Some? && c.isActive && c.pin == c.outputIsActive
    requires c.currIndex < FirstEnd(CurSteps(c))
    ensures Inv(SubstepAfterOn(c)) && SubstepAfterOn(c).isActive
  {
    var st := c.states[c.curr.value];
    if st.steps[c.currIndex].offTime > 0 {
      DriveInv(c, false);
    } else {
      var c2 := AdvanceStep(c);
      assert CurSteps(c2) == CurSteps(c);
      if !st.oneShot {
        DriveInv(c2, st.steps[c2.currIndex].onTime > 0);
      }
    }
  }

  /** Driving the output of a controller under timing control keeps the invariant, when an active output is at a step before the end step. */
  lemma DriveInv(c: Ctrl, on: bool)
    requires IndexOk(c) && c.curr.Some? && c.isActive
    requires on ==> c.currIndex < FirstEnd(CurSteps(c))
    ensures Inv(Drive(c, on)) && Drive(c, on).isActive
  {
    assert CurSteps(Drive(c, on)) == CurSteps(c);
  }

  lemma SubstepAfterOffInv(c: Ctrl)
    requires IndexOk(c) && c.curr.Some? && c.isActive && !c.outputIsActive && !c.pin && 0 < FirstEnd(CurSteps(c))
    ensures Inv(SubstepAfterOff(c)) && SubstepAfterOff(c).isActive
  {
  }

  lemma TickInv(c: Ctrl, t: u16)
    requires Inv(c) && (Running(c) ==> c.curr.Some?)
    ensures Inv(Tick(c, t))
  {
    if Running(c) {
      var step := CurSteps(c)[c.currIndex];
      var elapsed := Wrap16(c.timeElapsed + t);
      if c.outputIsActive && elapsed >= step.onTime && step.onTime != AlwaysInState {
        TickOnPhaseInv(c, t);
      } else if !c.outputIsActive && elapsed >= step.offTime && step.offTime != AlwaysInState {
        TickOffPhaseInv(c, t);
      } else {
        assert Tick(c, t) == c.(timeElapsed := elapsed);
      }
    }
  }

  /** The end of an on phase keeps the invariant. */
  lemma TickOnPhaseInv(c: Ctrl, t: u16)
    requires Inv(c) && Running(c) && c.curr.Some? && c.outputIsActive
    requires var step := CurSteps(c)[c.currIndex];
      Wrap16(c.timeElapsed + t) >= step.onTime && step.onTime != AlwaysInState
    ensures Inv(Tick(c, t))
  {
    var c1 := c.(timeElapsed := 0);
    assert Tick(c, t) == NextSubstep(c1);
    NextSubstepInv(c1);
  }

  /** The end of an off phase keeps the invariant. */
  lemma TickOffPhaseInv(c: Ctrl, t: u16)
    requires Inv(c) && Running(c) && c.curr.Some? && !c.outputIsActive
    requires var step := CurSteps(c)[c.currIndex];
      Wrap16(c.timeElapsed + t) >= step.offTime && step.offTime != AlwaysInState
    ensures Inv(Tick(c, t))
  {
    var steps := CurSteps(c);
    var step := steps[c.currIndex];
    assert c.currIndex != FirstEnd(steps);
    var runs := Wrap8(c.numTimesRun + 1);
    if runs >= step.numTimesToRun {
      var c1 := c.(timeElapsed := 0, currIndex := c.currIndex + 1, numTimesRun := 0);
      assert Tick(c, t) == NextSubstep(c1);
      NextSubstepInv(c1);
    } else {
      var c1 := c.(timeElapsed := 0, numTimesRun := runs);
      assert Tick(c, t) == NextSubstep(c1);
      NextSubstepInv(c1);
    }
  }

  lemma StartInv(c: Ctrl)
    requires Inv(c) && (c.isActive || c.curr.Some?)
    ensures Inv(Started(c).1)
  {
    if !c.isActive && !EndOfList(c) {
      NextSubstepInv(Reset(c).(isActive := true));
    }
  }

  lemma StopInv(c: Ctrl)
    requires Inv(c)
    ensures Inv(Stopped(c))
  {
  }

  lemma StateSetInv(c: Ctrl, s: nat)
    requires Inv(c) && (Defined(c.states, s) ==> c.curr.Some?)
    ensures Inv(Switched(c, s))
  {
    if StateChangeAllowed(c, s) && !c.testActive {
      var c1 := Reset(c.(isActive := false)).(curr := Lookup(c.states, s));
      if c.isActive && !EndOfList(c1) {
        NextSubstepInv(c1.(isActive := true));
      }
    }
  }

  lemma TestModeSetInv(c: Ctrl, makeActive: bool)
    requires Inv(c)
    ensures Inv(TestModeSwitched(c, makeActive))
  {
  }

  lemma AddStateInv(c: Ctrl, s: nat, oneShot: bool, priority: byte, steps: seq<Step>)
    requires Inv(c) && HasEnd(steps)
    ensures Inv(Added(c, s, oneShot, priority, steps).1)
  {
    if !Defined(c.states, s) && |c.states| < StateMax {
      var d := StateDef(s, oneShot, priority, steps);
      StatesOkAppend(c.states, d);
      var c1 := c.(states := c.states + [d]);
      if c.curr.Some? {
        assert CurSteps(c1) == CurSteps(c);
      }
    }
  }

  /** Appending a terminated state not yet defined keeps the state list well formed. */
  lemma StatesOkAppend(states: seq<StateDef>, d: StateDef)
    requires StatesOk(states) && |states| < StateMax && HasEnd(d.steps) && !Defined(states, d.state)
    ensures StatesOk(states + [d])
  {
    var r := states + [d];
    assert forall i :: 0 <= i < |states| ==> r[i] == states[i];
  }

  lemma ManualInv(c: Ctrl, level: bool)
    requires Inv(c)
    ensures Inv(Manual(c, level).1)
  {
  }

  // ---------------------------------------------------------------------
  // What the operations do.

  /**
   * AddState fails, changing nothing, iff the state is already defined or the
   * list is full; otherwise it appends the state, and the first state added
   * becomes the current one and the one test mode returns to.
   */
  lemma AddStateBehaviour(c: Ctrl, s: nat, oneShot: bool, priority: byte, steps: seq<Step>)
    ensures var (ok, c') := Added(c, s, oneShot, priority, steps);
      (ok <==> !Defined(c.states, s) && |c.states| < StateMax) &&
      (!ok ==> c' == c) &&
      (ok ==> c'.states == c.states + [StateDef(s, oneShot, priority, steps)] &&
              Defined(c'.states, s) &&
              c'.curr == (if c.curr.None? then Some(|c.states|) else c.curr) &&
              c'.testCurr == (if c.curr.None? then Some(|c.states|) else c.testCurr) &&
              c' == c.(states := c'.states, curr := c'.curr, testCurr := c'.testCurr))
  {
    var (ok, c') := Added(c, s, oneShot, priority, steps);
    if ok {
      assert c'.states[|c.states|].state == s;
    }
  }

  /** A tick changes nothing unless the controller is under timing control and its one-shot has not completed. */
  lemma TickIdle(c: Ctrl, t: u16)
    requires Inv(c) && !Running(c)
    ensures Tick(c, t) == c
  {
  }

  /**
   * A phase of length 0xFFFF never expires: the tick only accumulates time
   * (modulo 2^16), whatever its length.
   */
  lemma TickForeverPhase(c: Ctrl, t: u16)
    requires Inv(c) && Running(c) && c.curr.Some?
    requires (if c.outputIsActive then CurSteps(c)[c.currIndex].onTime else CurSteps(c)[c.currIndex].offTime) == AlwaysInState
    ensures Tick(c, t) == c.(timeElapsed := (c.timeElapsed + t) % 0x1_0000)
  {
  }

  /**
   * The end of an off phase counts one more run of the step. Until the
   * count reaches the step's repeat count the controller stays on the step
   * and the output follows its on time; at the count it moves to the next
   * step with the count restarted.
   */
  lemma TickCountsRuns(c: Ctrl, t: u16)
    requires Inv(c) && Running(c) && c.curr.Some? && !c.outputIsActive
    requires var step := CurSteps(c)[c.currIndex];
      step.offTime != AlwaysInState && (c.timeElapsed + t) % 0x1_0000 >= step.offTime
    ensures var step := CurSteps(c)[c.currIndex]; var c' := Tick(c, t);
      var runs := (c.numTimesRun + 1) % 0x100;
      c'.timeElapsed == 0 &&
      (runs < step.numTimesToRun ==>
        c'.currIndex == c.currIndex && c'.numTimesRun == runs &&
        c'.outputIsActive == (step.onTime > 0) && c'.curr == c.curr) &&
      (runs >= step.numTimesToRun ==> (c'.numTimesRun == 0 &&
        (c.currIndex + 1 < FirstEnd(CurSteps(c)) ==> c'.currIndex == c.currIndex + 1) &&
        (c.currIndex + 1 == FirstEnd(CurSteps(c)) ==> (c'.currIndex == 0 &&
          c'.oneShotComplete == c.states[c.curr.value].oneShot))))
  {
    assert c.currIndex != FirstEnd(CurSteps(c));
  }

  /** Start succeeds iff the controller was not under timing control and not at the end of its list; it then is. */
  lemma StartBehaviour(c: Ctrl)
    requires Inv(c) && (c.isActive || c.curr.Some?)
    ensures var (ok, c') := Started(c);
      (ok <==> !c.isActive && !EndOfList(c)) &&
      (ok ==> c'.isActive && c'.curr == c.curr && c'.states == c.states &&
              c'.outputIsActive == (CurSteps(c)[0].onTime > 0)) &&
      (!ok ==> c' == c)
  {
  }

  /**
   * Stop leaves the controller not under timing control, with the step,
   * time, one-shot flag and repeat count reset and the output recorded off;
   * a running output line is driven off.
   */
  lemma StopBehaviour(c: Ctrl)
    requires Inv(c)
    ensures var c' := Stopped(c);
      !c'.isActive && c'.currIndex == 0 && c'.timeElapsed == 0 && !c'.oneShotComplete &&
      c'.numTimesRun == 0 && !c'.outputIsActive && (c.isActive ==> !c'.pin) &&
      c'.curr == c.curr && c'.states == c.states && c'.testActive == c.testActive
  {
  }

  /**
   * StateSet changes the controller only when the state is defined, its
   * priority is at least the current one's, and it is another state or the
   * one-shot has completed. In test mode it only records the state to
   * return to; otherwise the state becomes current, and the controller stays
   * under timing control iff it was and the new state has a step to run.
   */
  lemma StateSetBehaviour(c: Ctrl, s: nat)
    requires Inv(c) && (Defined(c.states, s) ==> c.curr.Some?)
    ensures var c' := Switched(c, s);
      (!StateChangeAllowed(c, s) ==> c' == c) &&
      (StateChangeAllowed(c, s) && c.testActive ==> c' == c.(testCurr := Lookup(c.states, s))) &&
      (StateChangeAllowed(c, s) && !c.testActive ==>
        c'.curr == Lookup(c.states, s) && c'.states == c.states && c'.testCurr == c.testCurr &&
        c'.isActive == (c.isActive && !IsEnd(CurSteps(c')[0])) && c'.currIndex == 0 &&
        (c'.isActive ==> c'.outputIsActive == (CurSteps(c')[0].onTime > 0)))
  {
    if StateChangeAllowed(c, s) && !c.testActive {
      var c1 := Reset(c.(isActive := false)).(curr := Lookup(c.states, s));
      if c.isActive && !EndOfList(c1) {
        NextSubstepInv(c1.(isActive := true));
      }
    }
  }

  /**
   * Setting the mode the controller is already in changes nothing; entering
   * test mode and leaving it again restores the current state and the
   * timing control, with the control data reset.
   */
  lemma TestModeRoundTrip(c: Ctrl)
    requires Inv(c) && !c.testActive
    ensures TestModeSwitched(c, false) == c
    ensures var c1 := TestModeSwitched(c, true);
      Inv(c1) && c1.testActive && c1.curr == Lookup(c.states, StateCtrlTest) && c1.testCurr == c.curr &&
      c1.isActive == c.isActive
    ensures var c2 := TestModeSwitched(TestModeSwitched(c, true), false);
      !c2.testActive && c2.curr == c.curr && c2.isActive == c.isActive && c2.states == c.states &&
      c2.currIndex == 0 && c2.timeElapsed == 0 && !c2.oneShotComplete && c2.numTimesRun == 0
  {
    TestModeSetInv(c, true);
  }

  /** Manual control succeeds iff the controller is not under timing control, and then only drives the line. */
  lemma ManualBehaviour(c: Ctrl, level: bool)
    ensures var (ok, c') := Manual(c, level);
      (ok <==> !c.isActive) && (ok ==> c' == c.(pin := level)) && (!ok ==> c' == c)
  {
  }

  /** A controller that can be driven through state requests: it has a current state. */
  ghost predicate Ready(c: Ctrl)
  {
    Inv(c) && c.curr.Some?
  }

  /** GenOutCtrl_StateSet followed by GenOutCtrl_Start: a ready controller stays ready. */
  function Served(c: Ctrl, s: nat): (r: Ctrl)
    requires Ready(c)
    ensures Ready(r)
  {
    SwitchedStartedReady(c, s);
    Started(Switched(c, s)).1
  }

  /** Timing never changes a controller's state list or its current state. */
  lemma TickKeepsCurr(c: Ctrl, t: u16)
    requires Inv(c) && (Running(c) ==> c.curr.Some?)
    ensures Tick(c, t).curr == c.curr && Tick(c, t).states == c.states
  {
  }

  /** StateSet and Start keep a controller ready. */
  lemma SwitchedStartedReady(c: Ctrl, s: nat)
    requires Ready(c)
    ensures Ready(Switched(c, s)) && Ready(Started(Switched(c, s)).1)
  {
    StateSetInv(c, s);
    StartInv(Switched(c, s));
  }

  // ---------------------------------------------------------------------
  // The module's data as the firmware keeps it: state_ctrl[], one record per
  // output, updated field by field. Each method leaves every other record as
  // it was.

  class OutputCtrlModule {
    const stateCtrl: array<Ctrl>

    ghost predicate Valid()
      reads stateCtrl
    {
      stateCtrl.Length == NumIds && forall i :: 0 <= i < NumIds ==> Inv(stateCtrl[i])
    }

    /** InitControlData: every controller without states, inactive, output off. */
    constructor ()
      ensures Valid() && fresh(stateCtrl)
      ensures forall i :: 0 <= i < NumIds ==> stateCtrl[i] == Initial()
    {
      stateCtrl := new Ctrl[NumIds](_ => Initial());
      new;
      InitialInv();
    }

    /** IsStateDefined: a linear search of the controller's state list. */
    method IsStateDefined(id: nat, s: nat) returns (r: bool)
      requires stateCtrl.Length == NumIds && id < NumIds
      ensures r == Defined(stateCtrl[id].states, s)
    {
      var i := 0;
      while i < |stateCtrl[id].states|
        invariant 0 <= i <= |stateCtrl[id].states|
        invariant forall k :: 0 <= k < i ==> stateCtrl[id].states[k].state != s
      {
        if stateCtrl[id].states[i].state == s {
          return true;
        }
        i := i + 1;
      }
      return false;
    }

    /** StateControlObject_Get: the first definition of the state, None when there is none. */
    method StateControlObjectGet(id: nat, s: nat) returns (r: Option<nat>)
      requires stateCtrl.Length == NumIds && id < NumIds
      ensures r == Lookup(stateCtrl[id].states, s)
    {
      var i := 0;
      while i < |stateCtrl[id].states|
        invariant 0 <= i <= |stateCtrl[id].states|
        invariant forall k :: 0 <= k < i ==> stateCtrl[id].states[k].state != s
      {
        if stateCtrl[id].states[i].state == s {
          return Some(i);
        }
        i := i + 1;
      }
      return None;
    }

    method ResetControlData(id: nat)
      requires stateCtrl.Length == NumIds && id < NumIds
      modifies stateCtrl
      ensures stateCtrl[..] == old(stateCtrl[..])[id := Reset(old(stateCtrl[id]))]
    {
      stateCtrl[id] := stateCtrl[id].(currIndex := 0);
      stateCtrl[id] := stateCtrl[id].(timeElapsed := 0);
      stateCtrl[id] := stateCtrl[id].(oneShotComplete := false);
      stateCtrl[id] := stateCtrl[id].(numTimesRun := 0);
      if !stateCtrl[id].isActive {
        SetOutput(id, false);
      }
    }

    /** Drives the output line (GenOutCtrlBsp_SetActive / SetInactive) and records its level. */
    method SetOutput(id: nat, on: bool)
      requires stateCtrl.Length == NumIds && id < NumIds
      modifies stateCtrl
      ensures stateCtrl[..] == old(stateCtrl[..])[id := Drive(old(stateCtrl[id]), on)]
    {
      stateCtrl[id] := stateCtrl[id].(outputIsActive := on);
      stateCtrl[id] := stateCtrl[id].(pin := on);
    }

    method NextControlSubstep(id: nat)
      requires stateCtrl.Length == NumIds && id < NumIds
      requires IndexOk(stateCtrl[id]) && stateCtrl[id].curr.Some?
      requires stateCtrl[id].outputIsActive ==> stateCtrl[id].currIndex < FirstEnd(CurSteps(stateCtrl[id]))
      modifies stateCtrl
      ensures stateCtrl[..] == old(stateCtrl[..])[id := NextSubstep(old(stateCtrl[id]))]
    {
      if stateCtrl[id].outputIsActive {
        SubstepAfterOnPhase(id);
      } else {
        SubstepAfterOffPhase(id);
      }
    }

    method SubstepAfterOnPhase(id: nat)
      requires stateCtrl.Length == NumIds && id < NumIds
      requires IndexOk(stateCtrl[id]) && stateCtrl[id].curr.Some?
      requires stateCtrl[id].currIndex < FirstEnd(CurSteps(stateCtrl[id]))
      modifies stateCtrl
      ensures stateCtrl[..] == old(stateCtrl[..])[id := SubstepAfterOn(old(stateCtrl[id]))]
    {
      var st := stateCtrl[id].states[stateCtrl[id].curr.value];
      if st.steps[stateCtrl[id].currIndex].offTime > 0 {
        SetOutput(id, false);
      } else {
        AdvanceStepAt(id);
        if st.oneShot {
          stateCtrl[id] := stateCtrl[id].(oneShotComplete := true);
        } else {
          SetOutput(id, st.steps[stateCtrl[id].currIndex].onTime > 0);
        }
      }
    }

    method AdvanceStepAt(id: nat)
      requires stateCtrl.Length == NumIds && id < NumIds
      requires IndexOk(stateCtrl[id]) && stateCtrl[id].curr.Some?
      requires stateCtrl[id].currIndex < FirstEnd(CurSteps(stateCtrl[id]))
      modifies stateCtrl
      ensures stateCtrl[..] == old(stateCtrl[..])[id := AdvanceStep(old(stateCtrl[id]))]
    {
      stateCtrl[id] := stateCtrl[id].(currIndex := stateCtrl[id].currIndex + 1);
      if EndOfList(stateCtrl[id]) {
        stateCtrl[id] := stateCtrl[id].(currIndex := 0);
      }
    }

    method SubstepAfterOffPhase(id: nat)
      requires stateCtrl.Length == NumIds && id < NumIds
      requires IndexOk(stateCtrl[id]) && stateCtrl[id].curr.Some?
      modifies stateCtrl
      ensures stateCtrl[..] == old(stateCtrl[..])[id := SubstepAfterOff(old(stateCtrl[id]))]
    {
      var st := stateCtrl[id].states[stateCtrl[id].curr.value];
      assert st.steps == CurSteps(stateCtrl[id]);
      if IsEnd(st.steps[stateCtrl[id].currIndex]) {
        if st.oneShot {
          stateCtrl[id] := stateCtrl[id].(oneShotComplete := true);
        }
        stateCtrl[id] := stateCtrl[id].(currIndex := 0);
      }
      if stateCtrl[id].isActive && !stateCtrl[id].oneShotComplete {
        SetOutput(id, st.steps[stateCtrl[id].currIndex].onTime > 0);
      }
    }

    /** GenOutCtrl_AddState. */
    method AddState(id: nat, s: nat, oneShot: bool, priority: byte, steps: seq<Step>) returns (ok: bool)
      requires Valid() && id < NumIds && HasEnd(steps)
      modifies stateCtrl
      ensures Valid()
      ensures var (ok', c') := Added(old(stateCtrl[id]), s, oneShot, priority, steps);
        ok == ok' && stateCtrl[..] == old(stateCtrl[..])[id := c']
    {
      AddStateInv(stateCtrl[id], s, oneShot, priority, steps);
      var defined := IsStateDefined(id, s);
      if defined || |stateCtrl[id].states| >= StateMax {
        return false;
      }
      stateCtrl[id] := stateCtrl[id].(states := stateCtrl[id].states + [StateDef(s, oneShot, priority, steps)]);
      if stateCtrl[id].curr.None? {
        stateCtrl[id] := stateCtrl[id].(curr := Some(|stateCtrl[id].states| - 1));
        stateCtrl[id] := stateCtrl[id].(testCurr := stateCtrl[id].curr);
      }
      return true;
    }

    /** GenOutCtrl_TickUpdate_ms. */
    method TickUpdate(t: u16, id: nat) returns (ok: bool)
      requires Valid() && id < NumIds && (Running(stateCtrl[id]) ==> stateCtrl[id].curr.Some?)
      modifies stateCtrl
      ensures Valid() && ok
      ensures stateCtrl[..] == old(stateCtrl[..])[id := Tick(old(stateCtrl[id]), t)]
    {
      ghost var before := stateCtrl[..];
      TickInv(stateCtrl[id], t);
      if stateCtrl[id].isActive && !stateCtrl[id].oneShotComplete {
        TickRunning(t, id);
      }
      BankUpdateInv(before, stateCtrl[..], id, stateCtrl[id]);
      return true;
    }

    /** The timing of a controller under timing control and not finished with a one-shot state. */
    method TickRunning(t: u16, id: nat)
      requires stateCtrl.Length == NumIds && id < NumIds
      requires Inv(stateCtrl[id]) && Running(stateCtrl[id]) && stateCtrl[id].curr.Some?
      modifies stateCtrl
      ensures stateCtrl[..] == old(stateCtrl[..])[id := Tick(old(stateCtrl[id]), t)]
    {
      ghost var c := stateCtrl[id];
      var step := stateCtrl[id].states[stateCtrl[id].curr.value].steps[stateCtrl[id].currIndex];
      assert step == CurSteps(c)[c.currIndex];
      var elapsed := Wrap16(stateCtrl[id].timeElapsed + t);
      if stateCtrl[id].outputIsActive && elapsed >= step.onTime && step.onTime != AlwaysInState {
        EndOnPhase(id);
      } else if !stateCtrl[id].outputIsActive && elapsed >= step.offTime && step.offTime != AlwaysInState {
        assert c.currIndex != FirstEnd(CurSteps(c));
        EndOffPhase(id, step.numTimesToRun);
      } else {
        stateCtrl[id] := stateCtrl[id].(timeElapsed := elapsed);
      }
    }

    /** The end of an on phase: the time restarts and the next substep follows. */
    method EndOnPhase(id: nat)
      requires stateCtrl.Length == NumIds && id < NumIds
      requires Inv(stateCtrl[id]) && stateCtrl[id].outputIsActive
      modifies stateCtrl
      ensures stateCtrl[..] == old(stateCtrl[..])[id := NextSubstep(old(stateCtrl[id]).(timeElapsed := 0))]
    {
      stateCtrl[id] := stateCtrl[id].(timeElapsed := 0);
      NextControlSubstep(id);
    }

    /**
     * The end of an off phase: the time restarts, the step has run once more,
     * the controller moves on once the step's repeat count is reached, and the
     * next substep follows.
     */
    method EndOffPhase(id: nat, numTimesToRun: byte)
      requires stateCtrl.Length == NumIds && id < NumIds
      requires Inv(stateCtrl[id]) && stateCtrl[id].curr.Some? && !stateCtrl[id].outputIsActive
      requires stateCtrl[id].currIndex < FirstEnd(CurSteps(stateCtrl[id]))
      modifies stateCtrl
      ensures var c := old(stateCtrl[id]); var runs := Wrap8(c.numTimesRun + 1);
        stateCtrl[..] == old(stateCtrl[..])[id := NextSubstep(
          if runs >= numTimesToRun then c.(timeElapsed := 0, currIndex := c.currIndex + 1, numTimesRun := 0)
          else c.(timeElapsed := 0, numTimesRun := runs))]
    {
      var c := stateCtrl[id].(timeElapsed := 0, numTimesRun := Wrap8(stateCtrl[id].numTimesRun + 1));
      if c.numTimesRun >= numTimesToRun {
        c := c.(currIndex := c.currIndex + 1, numTimesRun := 0);
      }
      stateCtrl[id] := c;
      NextControlSubstep(id);
    }

    /** GenOutCtrl_Start. */
    method Start(id: nat) returns (ok: bool)
      requires Valid() && id < NumIds && (stateCtrl[id].isActive || stateCtrl[id].curr.Some?)
      modifies stateCtrl
      ensures Valid()
      ensures ok == CanStart(old(stateCtrl[id]))
      ensures stateCtrl[..] == old(stateCtrl[..])[id := Started(old(stateCtrl[id])).1]
    {
      StartInv(stateCtrl[id]);
      if !stateCtrl[id].isActive && !EndOfList(stateCtrl[id]) {
        ResetControlData(id);
        stateCtrl[id] := stateCtrl[id].(isActive := true);
        NextControlSubstep(id);
        return true;
      }
      return false;
    }

    /** GenOutCtrl_Stop. */
    method Stop(id: nat) returns (ok: bool)
      requires Valid() && id < NumIds
      modifies stateCtrl
      ensures Valid() && ok
      ensures stateCtrl[..] == old(stateCtrl[..])[id := Stopped(old(stateCtrl[id]))]
    {
      StopInv(stateCtrl[id]);
      if stateCtrl[id].isActive {
        stateCtrl[id] := stateCtrl[id].(isActive := false);
        ResetControlData(id);
      }
      return true;
    }

    /** GenOutCtrl_StateSet. */
    method StateSet(id: nat, s: nat) returns (ok: bool)
      requires Valid() && id < NumIds && (Defined(stateCtrl[id].states, s) ==> stateCtrl[id].curr.Some?)
      modifies stateCtrl
      ensures Valid() && ok
      ensures stateCtrl[..] == old(stateCtrl[..])[id := Switched(old(stateCtrl[id]), s)]
    {
      ghost var c := stateCtrl[id];
      StateSetInv(c, s);
      var defined := IsStateDefined(id, s);
      if defined {
        var obj := StateControlObjectGet(id, s);
        var cur := stateCtrl[id].states[stateCtrl[id].curr.value];
        if cur.priority <= stateCtrl[id].states[obj.value].priority &&
           (cur.state != s || stateCtrl[id].oneShotComplete)
        {
          assert StateChangeAllowed(c, s);
          if stateCtrl[id].testActive {
            stateCtrl[id] := stateCtrl[id].(testCurr := obj);
          } else {
            SwitchTo(id, obj);
          }
        }
      }
      return true;
    }

    /** The state change proper, outside test mode. */
    method SwitchTo(id: nat, obj: Option<nat>)
      requires stateCtrl.Length == NumIds && id < NumIds
      requires Inv(stateCtrl[id]) && obj.Some? && obj.value < |stateCtrl[id].states|
      modifies stateCtrl
      ensures var c1 := Reset(old(stateCtrl[id]).(isActive := false)).(curr := obj);
        stateCtrl[..] == old(stateCtrl[..])[id :=
          if !old(stateCtrl[id]).isActive then c1
          else if EndOfList(c1) then c1.(pin := false)
          else NextSubstep(c1.(isActive := true))]
    {
      var wasActive := stateCtrl[id].isActive;
      stateCtrl[id] := stateCtrl[id].(isActive := false);
      ResetControlData(id);
      stateCtrl[id] := stateCtrl[id].(curr := obj);
      if wasActive {
        if EndOfList(stateCtrl[id]) {
          stateCtrl[id] := stateCtrl[id].(pin := false);
        } else {
          stateCtrl[id] := stateCtrl[id].(isActive := true);
          NextControlSubstep(id);
        }
      }
    }

    /** GenOutCtrl_TestModeSet. */
    method TestModeSet(id: nat, makeActive: bool) returns (ok: bool)
      requires Valid() && id < NumIds
      modifies stateCtrl
      ensures Valid() && ok
      ensures stateCtrl[..] == old(stateCtrl[..])[id := TestModeSwitched(old(stateCtrl[id]), makeActive)]
    {
      ghost var before := stateCtrl[..];
      TestModeSetInv(stateCtrl[id], makeActive);
      if stateCtrl[id].testActive != makeActive {
        TestModeSwitch(id, makeActive);
      }
      BankUpdateInv(before, stateCtrl[..], id, stateCtrl[id]);
      return true;
    }

    /** The change into or out of test mode: timing control pauses, and the real and test state pointers swap roles. */
    method TestModeSwitch(id: nat, makeActive: bool)
      requires stateCtrl.Length == NumIds && id < NumIds
      requires Inv(stateCtrl[id]) && stateCtrl[id].testActive != makeActive
      modifies stateCtrl
      ensures stateCtrl[..] == old(stateCtrl[..])[id := TestModeSwitched(old(stateCtrl[id]), makeActive)]
    {
      stateCtrl[id] := stateCtrl[id].(testActive := makeActive);
      var wasActive := stateCtrl[id].isActive;
      stateCtrl[id] := stateCtrl[id].(isActive := false);
      ResetControlData(id);
      if makeActive {
        stateCtrl[id] := stateCtrl[id].(testCurr := stateCtrl[id].curr);
        var obj := StateControlObjectGet(id, StateCtrlTest);
        stateCtrl[id] := stateCtrl[id].(curr := obj);
      } else {
        stateCtrl[id] := stateCtrl[id].(curr := stateCtrl[id].testCurr);
      }
      if wasActive {
        stateCtrl[id] := stateCtrl[id].(isActive := true);
      }
    }

    /** GenOutCtrl_SetActive (level true), GenOutCtrl_SetInactive (false) and GenOutCtrl_ToggleActiveState (the other level). */
    method SetLevel(id: nat, level: bool) returns (ok: bool)
      requires Valid() && id < NumIds
      modifies stateCtrl
      ensures Valid()
      ensures var (ok', c') := Manual(old(stateCtrl[id]), level);
        ok == ok' && stateCtrl[..] == old(stateCtrl[..])[id := c']
    {
      ManualInv(stateCtrl[id], level);
      if !stateCtrl[id].isActive {
        stateCtrl[id] := stateCtrl[id].(pin := level);
        return true;
      }
      return false;
    }

    /** GenOutCtrl_TickUpdateAll_ms. */
    method TickUpdateAll(t: u16) returns (ok: bool)
      requires Valid() && forall i :: 0 <= i < NumIds ==> (Running(stateCtrl[i]) ==> stateCtrl[i].curr.Some?)
      modifies stateCtrl
      ensures Valid() && ok
      ensures forall i :: 0 <= i < NumIds ==> stateCtrl[i] == Tick(old(stateCtrl[i]), t)
    {
      ghost var before := stateCtrl[..];
      ok := true;
      var i := 0;
      while i < NumIds
        invariant 0 <= i <= NumIds && Valid()
        invariant forall k :: 0 <= k < i ==> stateCtrl[k] == Tick(before[k], t)
        invariant forall k :: i <= k < NumIds ==> stateCtrl[k] == before[k]
      {
        var r := TickUpdate(t, i);
        if !r {
          ok := false;
        }
        i := i + 1;
      }
    }

    /** GenOutCtrl_StartAll: true iff every controller started. */
    method StartAll() returns (ok: bool)
      requires Valid() && forall i :: 0 <= i < NumIds ==> (stateCtrl[i].isActive || stateCtrl[i].curr.Some?)
      modifies stateCtrl
      ensures Valid()
      ensures ok <==> forall i :: 0 <= i < NumIds ==> CanStart(old(stateCtrl[i]))
      ensures forall i :: 0 <= i < NumIds ==> stateCtrl[i] == Started(old(stateCtrl[i])).1
    {
      ghost var before := stateCtrl[..];
      ok := true;
      var i := 0;
      while i < NumIds
        invariant 0 <= i <= NumIds && Valid()
        invariant ok <==> forall k :: 0 <= k < i ==> CanStart(before[k])
        invariant forall k :: 0 <= k < i ==> stateCtrl[k] == Started(before[k]).1
        invariant forall k :: i <= k < NumIds ==> stateCtrl[k] == before[k]
      {
        assert stateCtrl[i] == before[i];
        var r := Start(i);
        if !r {
          ok := false;
        }
        i := i + 1;
      }
    }

    /** GenOutCtrl_StopAll. */
    method StopAll() returns (ok: bool)
      requires Valid()
      modifies stateCtrl
      ensures Valid() && ok
      ensures forall i :: 0 <= i < NumIds ==> stateCtrl[i] == Stopped(old(stateCtrl[i]))
    {
      ghost var before := stateCtrl[..];
      ok := true;
      var i := 0;
      while i < NumIds
        invariant 0 <= i <= NumIds && Valid()
        invariant forall k :: 0 <= k < i ==> stateCtrl[k] == Stopped(before[k])
        invariant forall k :: i <= k < NumIds ==> stateCtrl[k] == before[k]
      {
        var r := Stop(i);
        if !r {
          ok := false;
        }
        i := i + 1;
      }
    }

    /** GenOutCtrl_StateSetAll. */
    method StateSetAll(s: nat) returns (ok: bool)
      requires Valid() && forall i :: 0 <= i < NumIds ==> (Defined(stateCtrl[i].states, s) ==> stateCtrl[i].curr.Some?)
      modifies stateCtrl
      ensures Valid() && ok
      ensures forall i :: 0 <= i < NumIds ==> stateCtrl[i] == Switched(old(stateCtrl[i]), s)
    {
      ghost var before := stateCtrl[..];
      ok := true;
      var i := 0;
      while i < NumIds
        invariant 0 <= i <= NumIds && Valid()
        invariant forall k :: 0 <= k < i ==> stateCtrl[k] == Switched(before[k], s)
        invariant forall k :: i <= k < NumIds ==> stateCtrl[k] == before[k]
      {
        var r := StateSet(i, s);
        if !r {
          ok := false;
        }
        i := i + 1;
      }
    }

    /** GenOutCtrl_TestModeSetAll. */
    method TestModeSetAll(makeActive: bool) returns (ok: bool)
      requires Valid()
      modifies stateCtrl
      ensures Valid() && ok
      ensures forall i :: 0 <= i < NumIds ==> stateCtrl[i] == TestModeSwitched(old(stateCtrl[i]), makeActive)
    {
      ghost var before := stateCtrl[..];
      var i := 0;
      while i < NumIds
        invariant 0 <= i <= NumIds && Valid()
        invariant forall k :: 0 <= k < i ==> stateCtrl[k] == TestModeSwitched(before[k], makeActive)
        invariant forall k :: i <= k < NumIds ==> stateCtrl[k] == before[k]
      {
        var _ := TestModeSet(i, makeActive);
        i := i + 1;
      }
      return true;
    }

    /** GenOutCtrl_AtLeastOneOutputCtrlrIsActive. */
    method AtLeastOneOutputCtrlrIsActive() returns (r: bool)
      requires Valid() && forall i :: 0 <= i < NumIds ==> (Running(stateCtrl[i]) ==> stateCtrl[i].curr.Some?)
      ensures r <==> exists i :: 0 <= i < NumIds && OutputCtrlrIsActive(stateCtrl[i])
    {
      var i := 0;
      while i < NumIds
        invariant 0 <= i <= NumIds
        invariant forall k :: 0 <= k < i ==> !OutputCtrlrIsActive(stateCtrl[k])
      {
        var c := stateCtrl[i];
        if c.isActive && !c.oneShotComplete && c.states[c.curr.value].steps[c.currIndex].offTime != AlwaysInState {
          return true;
        }
        i := i + 1;
      }
      return false;
    }
  }
}
