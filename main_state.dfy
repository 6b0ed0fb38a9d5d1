// The main task's state engine. Every pass reads the user-switch bit and runs
// the current state: a start-up delay, the out-of-neutral-at-power-up check,
// driving from the pads, the user-switch hold that leads to Bluetooth mode or
// to the idle state, and mirroring the pads in Bluetooth mode.

module MainState {
  import opened Wrappers
  import opened BeepPatterns

  /** The state functions MainState can point to. */
  datatype MainStateId =
    | IdleState
    | StartupState
    | OonapuSetupState
    | OonapuState
    | AnnunciateDrivingReadyState
    | DrivingSetupState
    | DrivingState
    | DrivingUserSwitchState
    | DrivingIdleState
    | BluetoothSetupState
    | DoBluetoothState

  /**
   * What one pass reads: the user-switch bit of the switch pattern, the SW3
   * option switch, whether the pads are in neutral, and the four pads'
   * digital inputs.
   */
  datatype Inputs = Inputs(userSwitch: bool, sw3On: bool, padsInNeutral: bool,
                           left: bool, right: bool, center: bool, back: bool)

  /** A SetSpeedAndDirection call, in percent. */
  datatype Demand = Demand(speed: int, direction: int)

  /**
   * What one pass does outside the state engine: the beep it asks for, the
   * power LED level it sets, the demand it sends and whether it mirrors the
   * pads on the Bluetooth outputs.
   */
  datatype Effects = Effects(beep: Option<BeepPattern>, powerLed: Option<bool>, drive: Option<Demand>, mirror: bool)

  const NoEffects := Effects(None, None, None, false)

  /** The engine's variables: MainState, g_StartupDelayCounter and g_SwitchDelay. */
  datatype Engine = Engine(state: MainStateId, startupDelay: int, switchDelay: int)

  /** The number of passes in `ms` milliseconds, for a pass period of `delay` ms. */
  function Passes(ms: nat, delay: nat): nat
    requires delay > 0
  {
    ms / delay
  }

  /** MainTaskInitialise: a one-second start-up delay, then the start-up state. */
  function Initial(delay: nat): Engine
    requires delay > 0
  {
    Engine(StartupState, Passes(1000, delay), 0)
  }

  /** The counter clamped to half a second, as Startup_State and OONAPU_State do first. */
  function Clamped(counter: int, delay: nat): (r: int)
    requires delay > 0
    ensures r <= Passes(500, delay) && (counter <= Passes(500, delay) ==> r == counter)
  {
    if counter > Passes(500, delay) then Passes(500, delay) else counter
  }

  /** The demand Driving_State computes from the pads, before the user switch is looked at. */
  function PadDemand(i: Inputs): (r: Demand)
    ensures r.speed == 0 || r.direction == 0
    ensures -100 <= r.speed <= 100 && -100 <= r.direction <= 100
    ensures i.padsInNeutral ==> r == Demand(0, 0)
  {
    if i.padsInNeutral then Demand(0, 0)
    else if i.left then Demand(0, -100)
    else if i.right then Demand(0, 100)
    else if i.center then Demand(100, 0)
    else if i.back then Demand(-100, 0)
    else Demand(0, 0)
  }

  /** One pass of MainTask: the new engine and the pass's effects. */
  function Stepped(e: Engine, i: Inputs, delay: nat): (r: (Engine, Effects))
    requires delay > 0
    ensures e.state != IdleState ==> r.0.state != IdleState
    ensures r.1.drive.Some? ==> e.state == DrivingState
  {
    var half := Passes(500, delay);
    match e.state
    case IdleState =>
      (e.(startupDelay := e.startupDelay + 1), NoEffects)
    case StartupState =>
      var c := Clamped(e.startupDelay, delay) - 1;
      if c < 1 then
        if i.sw3On then (Engine(OonapuState, half, e.switchDelay), NoEffects.(powerLed := Some(true)))
        else (Engine(DrivingIdleState, half, e.switchDelay), NoEffects.(powerLed := Some(false)))
      else (e.(startupDelay := c), NoEffects)
    case OonapuSetupState =>
      (Engine(OonapuState, half, e.switchDelay), NoEffects)
    case OonapuState =>
      if i.padsInNeutral then
        var c := Clamped(e.startupDelay, delay) - 1;
        if c < 1 then (e.(state := AnnunciateDrivingReadyState, startupDelay := c), NoEffects)
        else (e.(startupDelay := c), NoEffects)
      else (e.(startupDelay := half), NoEffects)
    case AnnunciateDrivingReadyState =>
      (e.(state := DrivingSetupState), NoEffects)
    case DrivingSetupState =>
      if !i.userSwitch then (e.(state := DrivingState), NoEffects) else (e, NoEffects)
    case DrivingState =>
      if i.userSwitch then
        (e.(state := DrivingUserSwitchState, switchDelay := Passes(3000, delay)),
         Effects(Some(GotoIdle), Some(false), Some(Demand(0, 0)), false))
      else (e, NoEffects.(drive := Some(PadDemand(i))))
    case DrivingUserSwitchState =>
      if i.userSwitch then
        var d := if e.switchDelay != 0 then e.switchDelay - 1 else e.switchDelay;
        if d == 0 then (Engine(BluetoothSetupState, e.startupDelay, d), NoEffects.(beep := Some(AnnounceBluetooth)))
        else (e.(switchDelay := d), NoEffects)
      else (e.(state := DrivingIdleState), NoEffects.(powerLed := Some(false)))
    case DrivingIdleState =>
      if i.userSwitch then
        (e.(state := if i.sw3On then DrivingSetupState else OonapuSetupState),
         NoEffects.(beep := Some(ResumeDriving), powerLed := Some(true)))
      else (e, NoEffects)
    case BluetoothSetupState =>
      if !i.userSwitch then (e.(state := DoBluetoothState), NoEffects) else (e, NoEffects)
    case DoBluetoothState =>
      if i.userSwitch then (Engine(OonapuSetupState, half, e.switchDelay), NoEffects.(mirror := true))
      else (e, NoEffects.(mirror := true))
  }

  /** Does_Main_Allow_Beeping: beeping is quiet only in the idle state. */
  function AllowsBeeping(e: Engine): (r: bool)
    ensures !r <==> e.state == DrivingIdleState
  {
    e.state != DrivingIdleState
  }

  /**
   * What every reachable engine satisfies: the unused Idle_State is never
   * entered, the switch delay stays between 0 and three seconds' passes, and
   * the start-up counter between -1 and one second's passes, and not below 0
   * in the out-of-neutral check.
   */
  predicate Inv(e: Engine, delay: nat)
    requires delay > 0
  {
    e.state != IdleState &&
    0 <= e.switchDelay <= Passes(3000, delay) &&
    -1 <= e.startupDelay <= Passes(1000, delay) &&
    (e.state == OonapuState ==> e.startupDelay >= 0)
  }

  lemma InitialInv(delay: nat)
    requires delay > 0
    ensures Inv(Initial(delay), delay)
  {
  }

  /** Every pass keeps the invariant. */
  lemma StepKeepsInv(e: Engine, i: Inputs, delay: nat)
    requires delay > 0 && Inv(e, delay)
    ensures Inv(Stepped(e, i, delay).0, delay)
  {
    assert Passes(500, delay) <= Passes(1000, delay) <= Passes(3000, delay) by {
      DivMonotone(500, 1000, delay);
      DivMonotone(1000, 3000, delay);
    }
  }

  lemma DivMonotone(a: nat, b: nat, d: nat)
    requires d > 0 && a <= b
    ensures a / d <= b / d
  {
    MulMonotone(b / d + 1, a / d, d);
  }

  lemma MulMonotone(x: int, y: int, d: nat)
    ensures x <= y ==> x * d <= y * d
  {
    if x <= y {
      assert y * d - x * d == (y - x) * d;
    }
  }

  /**
   * A demand is sent exactly on a pass of the driving state. With the user
   * switch held it is no demand at all; otherwise the pads are read in the
   * order left, right, centre, back, a single pad sets a single axis to
   * full scale, and in neutral nothing moves.
   */
  lemma DrivingDemand(e: Engine, i: Inputs, delay: nat)
    requires delay > 0
    ensures Stepped(e, i, delay).1.drive.Some? <==> e.state == DrivingState
    ensures e.state == DrivingState ==> var d := Stepped(e, i, delay).1.drive.value;
      (i.userSwitch || i.padsInNeutral ==> d == Demand(0, 0)) &&
      (d.speed == 0 || d.direction == 0) &&
      d.speed in {-100, 0, 100} && d.direction in {-100, 0, 100} &&
      (!i.userSwitch && !i.padsInNeutral ==>
        (d.direction == -100 <==> i.left) &&
        (d.direction == 100 <==> !i.left && i.right) &&
        (d.speed == 100 <==> !i.left && !i.right && i.center) &&
        (d.speed == -100 <==> !i.left && !i.right && !i.center && i.back))
  {
  }

  /**
   * Driving is entered only from the driving set-up state with the user
   * switch released, and that state only after the ready announcement or
   * from the idle state with SW3 on; the ready announcement follows only a
   * pass in neutral in the out-of-neutral check.
   */
  lemma DrivingIsGuarded(e: Engine, i: Inputs, delay: nat)
    requires delay > 0
    ensures var n := Stepped(e, i, delay).0.state;
      (n == DrivingState ==> e.state in {DrivingSetupState, DrivingState} && (e.state == DrivingSetupState ==> !i.userSwitch)) &&
      (n == DrivingSetupState ==> e.state in {AnnunciateDrivingReadyState, DrivingSetupState} ||
                                  (e.state == DrivingIdleState && i.sw3On && i.userSwitch)) &&
      (n == AnnunciateDrivingReadyState ==> e.state == OonapuState && i.padsInNeutral)
  {
  }

  /** The engine after a run of passes. */
  function Run(e: Engine, ins: seq<Inputs>, delay: nat): Engine
    requires delay > 0
    decreases |ins|
  {
    if ins == [] then e else Run(Stepped(e, ins[0], delay).0, ins[1..], delay)
  }

  /**
   * In the out-of-neutral check, `n` passes in neutral count the clamped
   * counter down by `n`; the ready announcement comes on the pass that takes
   * it below 1 and not before.
   */
  lemma {:induction false} NeutralCountdown(e: Engine, ins: seq<Inputs>, delay: nat)
    requires delay > 0 && e.state == OonapuState && 1 <= e.startupDelay <= Passes(500, delay)
    requires 0 < |ins| <= e.startupDelay
    requires forall k :: 0 <= k < |ins| ==> ins[k].padsInNeutral
    ensures Run(e, ins, delay).startupDelay == e.startupDelay - |ins|
    ensures Run(e, ins, delay).state == if |ins| == e.startupDelay then AnnunciateDrivingReadyState else OonapuState
    decreases |ins|
  {
    var next := Stepped(e, ins[0], delay).0;
    if |ins| > 1 {
      NeutralCountdown(next, ins[1..], delay);
    } else {
      assert ins[1..] == [];
    }
  }

  /** A pass out of neutral in the out-of-neutral check restarts the half-second count. */
  lemma OutOfNeutralRestarts(e: Engine, i: Inputs, delay: nat)
    requires delay > 0 && e.state == OonapuState && !i.padsInNeutral
    ensures Stepped(e, i, delay).0 == e.(startupDelay := Passes(500, delay))
  {
  }

  /**
   * Holding the user switch while driving stops the chair, turns the power
   * LED off and beeps; held for the three-second count it leads to Bluetooth
   * set-up with the Bluetooth announcement, released earlier to the idle
   * state with the LED off.
   */
  lemma UserSwitchHold(e: Engine, i: Inputs, delay: nat)
    requires delay > 0 && Inv(e, delay)
    ensures e.state == DrivingState && i.userSwitch ==>
      Stepped(e, i, delay) == (e.(state := DrivingUserSwitchState, switchDelay := Passes(3000, delay)),
                               Effects(Some(GotoIdle), Some(false), Some(Demand(0, 0)), false))
    ensures e.state == DrivingUserSwitchState ==> var (n, fx) := Stepped(e, i, delay);
      (!i.userSwitch ==> n.state == DrivingIdleState && fx.powerLed == Some(false)) &&
      (i.userSwitch ==> (n.state == BluetoothSetupState <==> e.switchDelay <= 1) &&
                        (fx.beep == Some(AnnounceBluetooth) <==> e.switchDelay <= 1) &&
                        (e.switchDelay > 1 ==> n.switchDelay == e.switchDelay - 1))
  {
  }

  /**
   * The pads are mirrored on the Bluetooth outputs exactly in Bluetooth mode;
   * a press there ends it and restarts the out-of-neutral check.
   */
  lemma MirrorOnlyInBluetooth(e: Engine, i: Inputs, delay: nat)
    requires delay > 0
    ensures Stepped(e, i, delay).1.mirror <==> e.state == DoBluetoothState
    ensures e.state == DoBluetoothState ==>
      Stepped(e, i, delay).0.state == (if i.userSwitch then OonapuSetupState else DoBluetoothState)
  {
  }

  /** Only the idle state keeps the beeper quiet; leaving it on a press asks for the resume beep. */
  lemma IdleStateQuiet(e: Engine, i: Inputs, delay: nat)
    requires delay > 0
    ensures e.state == DrivingIdleState && i.userSwitch ==>
      Stepped(e, i, delay).1.beep == Some(ResumeDriving) && AllowsBeeping(Stepped(e, i, delay).0)
  {
  }

  /** The main task's variables. */
  class MainTask {
    var state: MainStateId
    var startupDelay: int
    var switchDelay: int
    /** MAIN_TASK_DELAY, the pass period in milliseconds. */
    const taskDelay: nat

    function Value(): Engine
      reads this
    {
      Engine(state, startupDelay, switchDelay)
    }

    /** MainTaskInitialise on the zero-initialised statics. */
    constructor (delay: nat)
      requires delay > 0
      ensures taskDelay == delay && Value() == Initial(delay)
    {
      taskDelay := delay;
      state := StartupState;
      startupDelay := 1000 / delay;
      switchDelay := 0;
    }

    /** Does_Main_Allow_Beeping. */
    function DoesMainAllowBeeping(): (r: bool)
      reads this
      ensures r == AllowsBeeping(Value())
    {
      state != DrivingIdleState
    }

    /** One pass of MainTask's loop: the current state function runs once. */
    method Step(i: Inputs) returns (fx: Effects)
      requires taskDelay > 0
      modifies this
      ensures (Value(), fx) == Stepped(old(Value()), i, taskDelay)
    {
      match state
      case IdleState => startupDelay := startupDelay + 1; fx := NoEffects;
      case StartupState => fx := Startup(i);
      case OonapuSetupState =>
        startupDelay := 500 / taskDelay;
        state := OonapuState;
        fx := NoEffects;
      case OonapuState => Oonapu(i); fx := NoEffects;
      case AnnunciateDrivingReadyState => state := DrivingSetupState; fx := NoEffects;
      case DrivingSetupState =>
        if !i.userSwitch {
          state := DrivingState;
        }
        fx := NoEffects;
      case DrivingState => fx := Driving(i);
      case DrivingUserSwitchState => fx := DrivingUserSwitch(i);
      case DrivingIdleState => fx := DrivingIdle(i);
      case BluetoothSetupState =>
        if !i.userSwitch {
          state := DoBluetoothState;
        }
        fx := NoEffects;
      case DoBluetoothState =>
        if i.userSwitch {
          startupDelay := 500 / taskDelay;
          state := OonapuSetupState;
        }
        fx := NoEffects.(mirror := true);
    }

    /** Startup_State. */
    method Startup(i: Inputs) returns (fx: Effects)
      requires taskDelay > 0 && state == StartupState
      modifies this
      ensures (Value(), fx) == Stepped(old(Value()), i, taskDelay)
    {
      if startupDelay > 500 / taskDelay {
        startupDelay := 500 / taskDelay;
      }
      startupDelay := startupDelay - 1;
      fx := NoEffects;
      if startupDelay < 1 {
        startupDelay := 500 / taskDelay;
        if i.sw3On {
          fx := fx.(powerLed := Some(true));
          state := OonapuState;
        } else {
          fx := fx.(powerLed := Some(false));
          state := DrivingIdleState;
        }
      }
    }

    /** OONAPU_State. */
    method Oonapu(i: Inputs)
      requires taskDelay > 0 && state == OonapuState
      modifies this
      ensures (Value(), NoEffects) == Stepped(old(Value()), i, taskDelay)
    {
      if i.padsInNeutral {
        if startupDelay > 500 / taskDelay {
          startupDelay := 500 / taskDelay;
        }
        startupDelay := startupDelay - 1;
        if startupDelay < 1 {
          state := AnnunciateDrivingReadyState;
        }
      } else {
        startupDelay := 500 / taskDelay;
      }
    }

    /** Driving_State. */
    method Driving(i: Inputs) returns (fx: Effects)
      requires taskDelay > 0 && state == DrivingState
      modifies this
      ensures (Value(), fx) == Stepped(old(Value()), i, taskDelay)
    {
      var speed, direction := 0, 0;
      if !i.padsInNeutral {
        if i.left {
          direction := -100;
        } else if i.right {
          direction := 100;
        } else if i.center {
          speed := 100;
        } else if i.back {
          speed := -100;
        }
      }
      fx := NoEffects;
      if i.userSwitch {
        speed, direction := 0, 0;
        fx := fx.(powerLed := Some(false), beep := Some(GotoIdle));
        switchDelay := 3000 / taskDelay;
        state := DrivingUserSwitchState;
      }
      fx := fx.(drive := Some(Demand(speed, direction)));
    }

    /** Driving_UserSwitch_State. */
    method DrivingUserSwitch(i: Inputs) returns (fx: Effects)
      requires taskDelay > 0 && state == DrivingUserSwitchState
      modifies this
      ensures (Value(), fx) == Stepped(old(Value()), i, taskDelay)
    {
      fx := NoEffects;
      if i.userSwitch {
        if switchDelay != 0 {
          switchDelay := switchDelay - 1;
        }
        if switchDelay == 0 {
          fx := fx.(beep := Some(AnnounceBluetooth));
          state := BluetoothSetupState;
        }
      } else {
        fx := fx.(powerLed := Some(false));
        state := DrivingIdleState;
      }
    }

    /** Driving_Idle_State. */
    method DrivingIdle(i: Inputs) returns (fx: Effects)
      requires taskDelay > 0 && state == DrivingIdleState
      modifies this
      ensures (Value(), fx) == Stepped(old(Value()), i, taskDelay)
    {
      fx := NoEffects;
      if i.userSwitch {
        fx := fx.(beep := Some(ResumeDriving), powerLed := Some(true));
        if i.sw3On {
          state := DrivingSetupState;
        } else {
          state := OonapuSetupState;
        }
      }
    }
  }
}
