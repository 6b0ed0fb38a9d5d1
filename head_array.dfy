// The head-array input task: every 20 ms it reads the three pads, and either
// waits for the pads to settle in neutral before control is handed back, or
// reports each pad's change of state to the output controller (its LED) and
// keeps the outputs in the power-off state the driving feature leaves them in.

module HeadArray {
  import opened Stopwatch
  import opened Features
  import GenOutCtrl

  // HeadArraySensor_t
  const SensorLeft: nat := 0
  const SensorRight: nat := 1
  const SensorCenter: nat := 2
  /** HEAD_ARRAY_SENSOR_EOL: the number of pads. */
  const NumSensors: nat := 3

  /** NEUTRAL_STATE_MIN_TIME_TO_CHECK_ms: how long the pads must stay in neutral. */
  const NeutralMinTimeMs: Tick := 750

  /** headArrayPadIsConnected: the connection test is not implemented; every pad reports connected. */
  function PadIsConnected(sensor: nat): (r: bool)
    ensures r
  {
    true
  }

  /** One entry of g_PadInfo: the pad's state this pass and the state last reported. */
  datatype PadInfo = PadInfo(current: bool, previous: bool)

  /** The pads after UpdatePadStatus: each current state is the one the pad reads. */
  function Updated(pads: seq<PadInfo>, reading: seq<bool>): (r: seq<PadInfo>)
    requires |pads| == NumSensors && |reading| == NumSensors
    ensures |r| == NumSensors
    ensures forall i :: 0 <= i < NumSensors ==> r[i] == pads[i].(current := reading[i])
  {
    seq(NumSensors, i requires 0 <= i < NumSensors => pads[i].(current := reading[i]))
  }

  /**
   * InNeutralState as written: it is true only when every pad reads active,
   * although the pad input reads true for a pressed pad.
   */
  function InNeutralAsWritten(pads: seq<PadInfo>): (r: bool)
    requires |pads| == NumSensors
    ensures r <==> forall i :: 0 <= i < NumSensors ==> pads[i].current
  {
    pads[SensorLeft].current && pads[SensorRight].current && pads[SensorCenter].current
  }

  /** InNeutralState as intended: no pad is pressed. */
  function InNeutral(pads: seq<PadInfo>): (r: bool)
    requires |pads| == NumSensors
    ensures r <==> forall i :: 0 <= i < NumSensors ==> !pads[i].current
  {
    !pads[SensorLeft].current && !pads[SensorRight].current && !pads[SensorCenter].current
  }

  /**
   * As written, released pads fail the neutral test and only all three
   * pressed pass it; the intended test passes exactly the released pads.
   */
  lemma NeutralTestInvertedAsWritten()
    ensures var released := seq(NumSensors, i => PadInfo(false, false));
      !InNeutralAsWritten(released) && InNeutral(released)
    ensures var pressed := seq(NumSensors, i => PadInfo(true, false));
      InNeutralAsWritten(pressed) && !InNeutral(pressed)
  {
  }

  /**
   * The neutral test a pass applies: InNeutralState as written, which the
   * head-array task calls, or as intended.
   */
  datatype NeutralTest = AsWritten | Intended

  /** The pad level a test takes as neutral: pressed as written, released as intended. */
  function NeutralLevel(test: NeutralTest): bool
  {
    test == AsWritten
  }

  function IsNeutral(test: NeutralTest, pads: seq<PadInfo>): (r: bool)
    requires |pads| == NumSensors
    ensures r <==> forall i :: 0 <= i < NumSensors ==> pads[i].current == NeutralLevel(test)
  {
    match test
    case AsWritten => InNeutralAsWritten(pads)
    case Intended => InNeutral(pads)
  }

  /** The request reporting one pad's change, if its state changed since the last report. */
  function EdgeRequest(p: PadInfo, active: nat, inactive: nat): seq<nat>
  {
    if p.current != p.previous then [if p.current then active else inactive] else []
  }

  /** The pad-LED requests of one pass, in the order the head-array task checks the pads: centre, left, right. */
  function Edges(pads: seq<PadInfo>): (r: seq<nat>)
    requires |pads| == NumSensors
    ensures |r| <= NumSensors
  {
    EdgeRequest(pads[SensorCenter], GenOutCtrl.StateForwardPadActive, GenOutCtrl.StateForwardPadInactive) +
    EdgeRequest(pads[SensorLeft], GenOutCtrl.StateLeftPadActive, GenOutCtrl.StateLeftPadInactive) +
    EdgeRequest(pads[SensorRight], GenOutCtrl.StateRightPadActive, GenOutCtrl.StateRightPadInactive)
  }

  /** The pads once every change is reported. */
  function Reported(pads: seq<PadInfo>): (r: seq<PadInfo>)
    requires |pads| == NumSensors
    ensures |r| == NumSensors
    ensures forall i :: 0 <= i < NumSensors ==> r[i] == PadInfo(pads[i].current, pads[i].current)
  {
    seq(NumSensors, i requires 0 <= i < NumSensors => PadInfo(pads[i].current, pads[i].current))
  }

  /** The LED-module state SendStateRequestToLedControlModule asks for: Bluetooth output or no output. */
  function LedState(feature: nat): (s: nat)
    ensures s == GenOutCtrl.StateBluetoothOutput <==> feature == FeatureOutCtrlToBtModule
    ensures s == GenOutCtrl.StateBluetoothOutput || s == GenOutCtrl.StateNoOutput
  {
    if feature == FeatureOutCtrlToBtModule then GenOutCtrl.StateBluetoothOutput else GenOutCtrl.StateNoOutput
  }

  /**
   * SetOutputs on the feature it reads (always driving): whether the outputs
   * are to be turned off, and whether the pads are mirrored on the Bluetooth
   * outputs. Only an active device, out of calibration, in the Bluetooth
   * feature keeps the outputs on.
   */
  function SetOutputs(deviceActive: bool, calibrationActive: bool, feature: nat): (r: (bool, bool))
    ensures !r.0 <==> deviceActive && !calibrationActive && feature == FeatureOutCtrlToBtModule
    ensures r.1 == !r.0
  {
    if deviceActive && !calibrationActive && feature == FeatureOutCtrlToBtModule then (false, true) else (true, false)
  }

  /**
   * The module's state: g_PadInfo, curr_active_feature, the neutral flags, the
   * task's outputs_are_off and neutral stopwatch, and what the head-array task has
   * caused so far: its GenOutCtrlApp_SetStateAll requests in call order, its
   * calls to bluetoothSimpleIfBspPadMirrorDisable and its wake-ups of the
   * output-control task.
   */
  datatype HeadState = HeadState(pads: seq<PadInfo>, feature: nat, waitForNeutral: bool, neutralTestFail: bool,
                                 outputsOff: bool, watch: Watch, log: seq<nat>, mirrorDisables: nat, wakes: nat)

  predicate WellFormed(s: HeadState)
  {
    |s.pads| == NumSensors
  }

  /** SendStateRequestToLedControlModule, `needSendEvent` being genOutCtrlAppNeedSendEvent's answer. */
  function SendStateRequest(s: HeadState, needSendEvent: bool): (HeadState, bool)
  {
    (s.(log := s.log + [LedState(s.feature)]), needSendEvent)
  }

  /**
   * SyncWithEeprom: the feature it reads is always driving; a change of
   * feature would switch the mirroring off, report the new LED state and
   * start a neutral wait.
   */
  function Sync(s: HeadState, needSendEvent: bool): (r: (HeadState, bool))
    ensures r.0.feature == FeatureDriving && r.0.pads == s.pads
    ensures r.0.waitForNeutral == (s.waitForNeutral || s.feature != FeatureDriving)
    ensures s.feature == FeatureDriving ==> r == (s, false)
  {
    if s.feature != FeatureDriving then
      var s1 := s.(feature := FeatureDriving);
      var s2 := if FeatureDriving == FeatureOutCtrlToBtModule then s1 else s1.(mirrorDisables := s1.mirrorDisables + 1);
      var (s3, need) := SendStateRequest(s2, needSendEvent);
      (s3.(waitForNeutral := true), need)
    else (s, false)
  }

  /**
   * A pass while waiting for neutral, at time `now`: nothing is reported; a
   * pass that finds the pads out of neutral flags the test failed and
   * restarts the stopwatch, and a wait ends only on pads in neutral, with the
   * flag cleared and the stopwatch stopped.
   */
  function NeutralPass(s: HeadState, now: Tick, test: NeutralTest): (r: HeadState)
    requires WellFormed(s)
    ensures r.pads == s.pads && r.feature == s.feature && r.log == s.log && r.wakes == s.wakes
    ensures r.outputsOff == s.outputsOff
    ensures !IsNeutral(test, s.pads) ==>
      r.neutralTestFail && r.waitForNeutral == s.waitForNeutral && r.watch == Watch(now, true)
    ensures r.waitForNeutral != s.waitForNeutral ==> IsNeutral(test, s.pads) && !r.neutralTestFail && !r.watch.active
  {
    var s1 := if !s.watch.active then s.(watch := Started(s.watch, now), mirrorDisables := s.mirrorDisables + 1) else s;
    if IsNeutral(test, s1.pads) then
      if Elapsed(s1.watch.startTime, now) >= NeutralMinTimeMs then
        s1.(watch := Stopped(s1.watch), neutralTestFail := false, waitForNeutral := false)
      else s1
    else s1.(watch := Zeroed(s1.watch, now), neutralTestFail := true)
  }

  /**
   * A pass of normal operation: sync, report the pad changes, then the
   * outputs' power-off handling; the neutral flag and stopwatch are left alone.
   */
  function DrivePass(s: HeadState, needSendEvent: bool, deviceActive: bool, calibrationActive: bool): (r: HeadState)
    requires WellFormed(s)
    ensures r.feature == FeatureDriving && r.pads == Reported(s.pads)
    ensures r.neutralTestFail == s.neutralTestFail && r.watch == s.watch
  {
    var (s1, wake) := Sync(s, needSendEvent);
    var s2 := s1.(wakes := if wake then s1.wakes + 1 else s1.wakes, log := s1.log + Edges(s1.pads),
                  pads := Reported(s1.pads));
    var turnOff := SetOutputs(deviceActive, calibrationActive, FeatureDriving).0;
    if turnOff && !s2.outputsOff then s2.(outputsOff := true, mirrorDisables := s2.mirrorDisables + 1)
    else if s2.outputsOff then s2.(outputsOff := false)
    else s2
  }

  /**
   * One pass of HeadArrayInputControlTask's loop, the pads reading `reading`
   * and the wait applying `test`: the pads take the reading, and a pass
   * spent waiting for neutral reports nothing.
   */
  function Pass(s: HeadState, reading: seq<bool>, now: Tick, needSendEvent: bool,
                deviceActive: bool, calibrationActive: bool, test: NeutralTest): (r: HeadState)
    requires WellFormed(s) && |reading| == NumSensors
    ensures WellFormed(r)
    ensures forall i :: 0 <= i < NumSensors ==> r.pads[i].current == reading[i]
    ensures s.waitForNeutral ==> r.log == s.log && r.wakes == s.wakes && r.feature == s.feature
  {
    var s0 := s.(pads := Updated(s.pads, reading));
    if s0.waitForNeutral then NeutralPass(s0, now, test)
    else DrivePass(s0, needSendEvent, deviceActive, calibrationActive)
  }

  /** One pass's inputs: what the pads read and the time. */
  datatype PassInput = PassInput(reading: seq<bool>, now: Tick)

  /** Successive passes of the input task, the oldest input first. */
  function Passes(s: HeadState, inputs: seq<PassInput>, needSendEvent: bool, deviceActive: bool,
                  calibrationActive: bool, test: NeutralTest): (r: HeadState)
    requires WellFormed(s) && forall k :: 0 <= k < |inputs| ==> |inputs[k].reading| == NumSensors
    ensures WellFormed(r)
    decreases |inputs|
  {
    if inputs == [] then s
    else Passes(Pass(s, inputs[0].reading, inputs[0].now, needSendEvent, deviceActive, calibrationActive, test),
                inputs[1..], needSendEvent, deviceActive, calibrationActive, test)
  }

  /** Some pad reads released. */
  predicate SomeReleased(reading: seq<bool>)
  {
    exists i :: 0 <= i < |reading| && !reading[i]
  }

  /**
   * A pad's change is reported with its new state exactly once, and a pad
   * that did not change is not reported.
   */
  lemma EdgesReportChanges(pads: seq<PadInfo>)
    requires |pads| == NumSensors
    ensures var e := Edges(pads);
      (GenOutCtrl.StateForwardPadActive in e <==> pads[SensorCenter].current && !pads[SensorCenter].previous) &&
      (GenOutCtrl.StateForwardPadInactive in e <==> !pads[SensorCenter].current && pads[SensorCenter].previous) &&
      (GenOutCtrl.StateLeftPadActive in e <==> pads[SensorLeft].current && !pads[SensorLeft].previous) &&
      (GenOutCtrl.StateLeftPadInactive in e <==> !pads[SensorLeft].current && pads[SensorLeft].previous) &&
      (GenOutCtrl.StateRightPadActive in e <==> pads[SensorRight].current && !pads[SensorRight].previous) &&
      (GenOutCtrl.StateRightPadInactive in e <==> !pads[SensorRight].current && pads[SensorRight].previous)
    ensures Edges(pads) == [] <==> forall i :: 0 <= i < NumSensors ==> pads[i].current == pads[i].previous
  {
  }

  /** Once reported, pads that read the same again are not reported again. */
  lemma SteadyPadsAreQuiet(pads: seq<PadInfo>, reading: seq<bool>)
    requires |pads| == NumSensors && |reading| == NumSensors
    requires forall i :: 0 <= i < NumSensors ==> pads[i].current == reading[i]
    ensures Edges(Updated(Reported(pads), reading)) == []
  {
  }

  /**
   * In normal operation the code of SyncWithEeprom never changes the
   * feature, so from the driving feature a pass starts no neutral wait, and a
   * pass reports the pads' changes, leaves each pad reported, and turns the
   * outputs' off flag over: the mirroring is switched off on every other pass.
   */
  lemma DrivePassFromDriving(s: HeadState, needSendEvent: bool, deviceActive: bool, calibrationActive: bool)
    requires WellFormed(s) && s.feature == FeatureDriving
    ensures var r := DrivePass(s, needSendEvent, deviceActive, calibrationActive);
      r.feature == FeatureDriving && r.waitForNeutral == s.waitForNeutral && r.wakes == s.wakes &&
      r.log == s.log + Edges(s.pads) && r.pads == Reported(s.pads) &&
      r.outputsOff == !s.outputsOff &&
      r.mirrorDisables == (if s.outputsOff then s.mirrorDisables else s.mirrorDisables + 1) &&
      r.neutralTestFail == s.neutralTestFail && r.watch == s.watch
  {
  }

  /**
   * A pass that finds the feature changed reports the new LED state, switches
   * the mirroring off and starts a neutral wait.
   */
  lemma FeatureChangeStartsNeutralWait(s: HeadState, needSendEvent: bool)
    requires s.feature != FeatureDriving
    ensures var (r, need) := Sync(s, needSendEvent);
      r.feature == FeatureDriving && r.waitForNeutral && need == needSendEvent &&
      r.log == s.log + [GenOutCtrl.StateNoOutput] && r.mirrorDisables == s.mirrorDisables + 1
  {
  }

  /**
   * While waiting for neutral nothing is reported to the output controller;
   * pads out of neutral restart the wait and flag the test failed, and the
   * wait ends, clearing the flag, once the pads have stayed in neutral for
   * 750 ms. In neutral means every pad at the test's level: all pressed as
   * written, all released as intended.
   */
  lemma NeutralWait(s: HeadState, reading: seq<bool>, now: Tick, needSendEvent: bool,
                    deviceActive: bool, calibrationActive: bool, test: NeutralTest)
    requires WellFormed(s) && s.waitForNeutral && |reading| == NumSensors
    ensures var r := Pass(s, reading, now, needSendEvent, deviceActive, calibrationActive, test);
      var neutral := forall i :: 0 <= i < NumSensors ==> reading[i] == NeutralLevel(test);
      r.log == s.log && r.wakes == s.wakes &&
      (!neutral ==> r.waitForNeutral && r.neutralTestFail && r.watch == Watch(now, true)) &&
      (neutral && s.watch.active ==>
        (!r.waitForNeutral <==> Elapsed(s.watch.startTime, now) >= NeutralMinTimeMs) &&
        (!r.waitForNeutral ==> !r.neutralTestFail && !r.watch.active)) &&
      (neutral && !s.watch.active ==> r.waitForNeutral && r.watch == Watch(now, true))
  {
  }

  /**
   * A wait begun on a stopped stopwatch: two passes with the pads in
   * neutral, 750 ms or more apart and less than one counter roll-over, end
   * the wait with the test passed. As intended the pads are released; as
   * written they are all pressed.
   */
  lemma NeutralWaitEnds(s: HeadState, reading: seq<bool>, t0: Tick, d: nat, needSendEvent: bool,
                        deviceActive: bool, calibrationActive: bool, test: NeutralTest)
    requires WellFormed(s) && s.waitForNeutral && !s.watch.active && |reading| == NumSensors
    requires forall i :: 0 <= i < NumSensors ==> reading[i] == NeutralLevel(test)
    requires NeutralMinTimeMs <= d < TickModulus
    ensures var r1 := Pass(s, reading, t0, needSendEvent, deviceActive, calibrationActive, test);
      var r2 := Pass(r1, reading, (t0 + d) % TickModulus, needSendEvent, deviceActive, calibrationActive, test);
      r1.waitForNeutral ==> !r2.waitForNeutral && !r2.neutralTestFail
  {
    ElapsedAcrossRollover(t0, d);
  }

  /**
   * As written, a neutral wait never ends while some pad is released: over
   * any run of such passes, however long, the wait stays pending with the
   * test flagged failed, and nothing is reported to the output controller.
   */
  lemma {:induction false} NeutralWaitNeverEndsAsWritten(s: HeadState, inputs: seq<PassInput>, needSendEvent: bool,
                                                         deviceActive: bool, calibrationActive: bool)
    requires WellFormed(s) && s.waitForNeutral
    requires forall k :: 0 <= k < |inputs| ==> |inputs[k].reading| == NumSensors && SomeReleased(inputs[k].reading)
    ensures var r := Passes(s, inputs, needSendEvent, deviceActive, calibrationActive, AsWritten);
      r.waitForNeutral && r.log == s.log && r.wakes == s.wakes && (inputs != [] ==> r.neutralTestFail)
    decreases |inputs|
  {
    if inputs != [] {
      var s1 := Pass(s, inputs[0].reading, inputs[0].now, needSendEvent, deviceActive, calibrationActive, AsWritten);
      NeutralWait(s, inputs[0].reading, inputs[0].now, needSendEvent, deviceActive, calibrationActive, AsWritten);
      NeutralWaitNeverEndsAsWritten(s1, inputs[1..], needSendEvent, deviceActive, calibrationActive);
    }
  }

  /** The module's globals and the input task's locals. */
  class HeadArrayTask {
    const padInfo: array<PadInfo>
    var currActiveFeature: nat
    var waitForNeutral: bool
    var neutralTestFail: bool
    var outputsAreOff: bool
    /** The head-array task's neutral_sw, whose initial contents the firmware never sets. */
    const neutralWatch: StopWatch
    var log: seq<nat>
    var mirrorDisables: nat
    var wakes: nat

    ghost predicate Valid()
      reads this
    {
      padInfo.Length == NumSensors
    }

    function Value(): HeadState
      reads this, padInfo, neutralWatch
    {
      HeadState(padInfo[..], currActiveFeature, waitForNeutral, neutralTestFail, outputsAreOff,
                neutralWatch.Value(), log, mirrorDisables, wakes)
    }

    /** The zero-initialised statics; the neutral stopwatch starts as `start` holds. */
    constructor (start: Watch)
      ensures Valid() && fresh(padInfo) && fresh(neutralWatch)
      ensures Value() == HeadState(seq(NumSensors, i => PadInfo(false, false)), FeatureDriving, false, false,
                                   false, start, [], 0, 0)
    {
      padInfo := new PadInfo[NumSensors](i => PadInfo(false, false));
      currActiveFeature := FeatureDriving;
      waitForNeutral := false;
      neutralTestFail := false;
      outputsAreOff := false;
      neutralWatch := new StopWatch();
      log := [];
      mirrorDisables := 0;
      wakes := 0;
      new;
      neutralWatch.startTime := start.startTime;
      neutralWatch.active := start.active;
    }

    /** headArrayinit: every pad cleared, then a sync with the stored settings. */
    method Init(needSendEvent: bool)
      requires Valid()
      modifies this, padInfo
      ensures Valid()
      ensures Value() == Sync(old(Value()).(pads := seq(NumSensors, i => PadInfo(false, false))), needSendEvent).0
    {
      ClearPads();
      var _ := SyncWithEeprom(needSendEvent);
    }

    /** headArrayinit's loop: every pad's current and previous state cleared. */
    method ClearPads()
      requires Valid()
      modifies padInfo
      ensures padInfo[..] == seq(NumSensors, i => PadInfo(false, false))
    {
      var i := 0;
      while i < NumSensors
        invariant 0 <= i <= NumSensors
        invariant forall k :: 0 <= k < i ==> padInfo[k] == PadInfo(false, false)
      {
        padInfo[i] := PadInfo(false, false);
        i := i + 1;
      }
    }

    /** headArrayDigitalInputValue. */
    function DigitalInputValue(sensor: nat): (r: bool)
      requires Valid() && sensor < NumSensors
      reads this, padInfo
      ensures r == Value().pads[sensor].current
    {
      padInfo[sensor].current
    }

    /** headArrayNeutralTestFail. */
    function NeutralTestFail(): (r: bool)
      reads this
      ensures r == neutralTestFail
    {
      neutralTestFail
    }

    /** SetNeedForNeutralTest: the next pass starts a neutral wait. */
    method SetNeedForNeutralTest()
      modifies this
      ensures Value() == old(Value()).(waitForNeutral := true)
    {
      waitForNeutral := true;
    }

    /** SendStateRequestToLedControlModule. */
    method SendStateRequestToLedControlModule(needSendEvent: bool) returns (need: bool)
      modifies this
      ensures (Value(), need) == SendStateRequest(old(Value()), needSendEvent)
    {
      var ledState := if currActiveFeature == FeatureOutCtrlToBtModule then GenOutCtrl.StateBluetoothOutput
                      else GenOutCtrl.StateNoOutput;
      log := log + [ledState];
      need := needSendEvent;
    }

    /** SyncWithEeprom. */
    method SyncWithEeprom(needSendEvent: bool) returns (need: bool)
      modifies this
      ensures (Value(), need) == Sync(old(Value()), needSendEvent)
    {
      need := false;
      var newFeature := FeatureDriving;
      if currActiveFeature != newFeature {
        currActiveFeature := newFeature;
        if currActiveFeature != FeatureOutCtrlToBtModule {
          mirrorDisables := mirrorDisables + 1;
        }
        need := SendStateRequestToLedControlModule(needSendEvent);
        waitForNeutral := true;
      }
    }

    /** The head-array task's start: outputs_are_off is cleared and the LED state is reported. */
    method TaskOpen(needSendEvent: bool)
      modifies this
      ensures var (r, need) := SendStateRequest(old(Value()), needSendEvent);
        Value() == r.(outputsOff := false, wakes := if need then r.wakes + 1 else r.wakes)
    {
      outputsAreOff := false;
      var need := SendStateRequestToLedControlModule(needSendEvent);
      if need {
        wakes := wakes + 1;
      }
    }

    /** UpdatePadStatus: each pad's current state is read from its input. */
    method UpdatePadStatus(reading: seq<bool>)
      requires Valid() && |reading| == NumSensors
      modifies padInfo
      ensures padInfo[..] == Updated(old(padInfo[..]), reading)
    {
      var sensor := 0;
      while sensor < NumSensors
        invariant 0 <= sensor <= NumSensors
        invariant forall k :: 0 <= k < sensor ==> padInfo[k] == old(padInfo[k]).(current := reading[k])
        invariant forall k :: sensor <= k < NumSensors ==> padInfo[k] == old(padInfo[k])
      {
        padInfo[sensor] := padInfo[sensor].(current := reading[sensor]);
        sensor := sensor + 1;
      }
    }

    /** One pass of HeadArrayInputControlTask's loop, with the neutral test as written. */
    method TaskPass(clock: Clock, reading: seq<bool>, needSendEvent: bool, deviceActive: bool, calibrationActive: bool)
      requires Valid() && |reading| == NumSensors
      modifies this, padInfo, neutralWatch
      ensures Valid()
      ensures Value() == Pass(old(Value()), reading, clock.now, needSendEvent, deviceActive, calibrationActive, AsWritten)
    {
      UpdatePadStatus(reading);
      if waitForNeutral {
        WaitForNeutralStep(clock);
      } else {
        DriveStep(needSendEvent, deviceActive, calibrationActive);
      }
    }

    /** The neutral-wait half of a pass, calling InNeutralState as written. */
    method WaitForNeutralStep(clock: Clock)
      requires Valid()
      modifies this, neutralWatch
      ensures Value() == NeutralPass(old(Value()), clock.now, AsWritten)
    {
      if !neutralWatch.IsActive() {
        neutralWatch.Start(clock);
        mirrorDisables := mirrorDisables + 1;
      }
      var neutral := InNeutralState();
      if neutral {
        var elapsed := neutralWatch.TimeElapsed(clock, false);
        if elapsed >= NeutralMinTimeMs {
          neutralWatch.Stop();
          neutralTestFail := false;
          waitForNeutral := false;
        }
      } else {
        neutralWatch.Zero(clock);
        neutralTestFail := true;
      }
    }

    /** InNeutralState: `active` starts true and is cleared by every pad that reads released. */
    method InNeutralState() returns (active: bool)
      requires Valid()
      ensures active == InNeutralAsWritten(padInfo[..])
    {
      active := true;
      var i := 0;
      while i < NumSensors
        invariant 0 <= i <= NumSensors
        invariant active <==> forall k :: 0 <= k < i ==> padInfo[k].current
      {
        if !padInfo[i].current {
          active := false;
        }
        i := i + 1;
      }
    }

    /** The normal half of a pass. */
    method DriveStep(needSendEvent: bool, deviceActive: bool, calibrationActive: bool)
      requires Valid()
      modifies this, padInfo
      ensures Value() == DrivePass(old(Value()), needSendEvent, deviceActive, calibrationActive)
    {
      var wake := SyncWithEeprom(needSendEvent);
      if wake {
        wakes := wakes + 1;
      }
      ReportPads();
      OutputsStep(deviceActive, calibrationActive);
    }

    /** The power-off handling after SetOutputs, on the feature SetOutputs reads. */
    method OutputsStep(deviceActive: bool, calibrationActive: bool)
      modifies this
      ensures var s := old(Value());
        var turnOff := SetOutputs(deviceActive, calibrationActive, FeatureDriving).0;
        Value() == if turnOff && !s.outputsOff then s.(outputsOff := true, mirrorDisables := s.mirrorDisables + 1)
                   else if s.outputsOff then s.(outputsOff := false)
                   else s
    {
      var (turnOff, _) := SetOutputs(deviceActive, calibrationActive, FeatureDriving);
      if turnOff && !outputsAreOff {
        outputsAreOff := true;
        mirrorDisables := mirrorDisables + 1;
      } else if outputsAreOff {
        outputsAreOff := false;
      }
    }

    /** The three pads' changes reported, centre, left, right. */
    method ReportPads()
      requires Valid()
      modifies this, padInfo
      ensures Value() == old(Value()).(log := old(log) + Edges(old(padInfo[..])), pads := Reported(old(padInfo[..])))
    {
      ghost var p := padInfo[..];
      ReportPad(SensorCenter, GenOutCtrl.StateForwardPadActive, GenOutCtrl.StateForwardPadInactive);
      ReportPad(SensorLeft, GenOutCtrl.StateLeftPadActive, GenOutCtrl.StateLeftPadInactive);
      ReportPad(SensorRight, GenOutCtrl.StateRightPadActive, GenOutCtrl.StateRightPadInactive);
      assert padInfo[..] == Reported(p);
    }

    /** One pad's change reported to the output controller. */
    method ReportPad(sensor: nat, active: nat, inactive: nat)
      requires Valid() && sensor < NumSensors
      modifies this, padInfo
      ensures log == old(log) + EdgeRequest(old(padInfo[sensor]), active, inactive)
      ensures padInfo[..] == old(padInfo[..])[sensor := PadInfo(old(padInfo[sensor]).current, old(padInfo[sensor]).current)]
      ensures currActiveFeature == old(currActiveFeature) && waitForNeutral == old(waitForNeutral)
      ensures neutralTestFail == old(neutralTestFail) && outputsAreOff == old(outputsAreOff)
      ensures mirrorDisables == old(mirrorDisables) && wakes == old(wakes)
    {
      var p := padInfo[sensor];
      if p.current != p.previous {
        log := log + [if p.current then active else inactive];
        padInfo[sensor] := p.(previous := p.current);
      }
    }
  }
}
