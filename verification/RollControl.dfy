/** The roll controller of src/rollcontrol.c: servo enable, flight timeout and the control loop. */
module RollControl {
  import opened Bytes
  import opened Commands
  import opened FinLaw
  import opened RollServo
  import PsasTime
  import Arm

  const KP := 5.0
  const KI := 0.01
  const KD := 0.0
  const PID_TARGET := 0.0
  const INTEGRATOR_MAX := 100.0 / KI
  const INTEGRATOR_MIN := -100.0 / KI

  /** Two minutes in nanoseconds. */
  const TIMEOUT := 120 * 1_000_000_000

  datatype RcState =
    RcState(armed: bool, enableServo: bool, launched: bool, timeout: nat, lastError: real, integrator: real)

  const INITIAL := RcState(false, false, false, 0, 0.0, 0.0)

  /** A new state and the commands sent to the roll servo. */
  datatype Handled = Handled(st: RcState, sent: seq<RollServoData>)

  function CanardCommand(enableServo: bool, degrees: real): RollServoData {
    RollServoData(ClampAngle(degrees), !enableServo)
  }

  // ---------------------------------------------------------------- control loop

  function Error(rollRate: real): real {
    PID_TARGET - rollRate
  }

  function Correction(integrator: real, lastError: real, error: real): real {
    KP * error + KI * integrator + KD * (error - lastError)
  }

  function NextIntegrator(integrator: real, error: real): (r: real)
    ensures INTEGRATOR_MIN <= r <= INTEGRATOR_MAX
  {
    var sum := integrator + error;
    if sum > INTEGRATOR_MAX then INTEGRATOR_MAX else if sum < INTEGRATOR_MIN then INTEGRATOR_MIN else sum
  }

  /** The command for a state message under control. */
  function Control(law: CanardLaw, st: RcState, data: StateData): RollServoData {
    CanardCommand(st.enableServo,
                  law(Correction(st.integrator, st.lastError, Error(data.rollRate)), data))
  }

  /** For fixed flight conditions and controller state, a higher roll rate never raises the servo ticks. */
  lemma PipelineMonotone(lib: MathLib, st: RcState, data: StateData, rollRate: real)
    requires Lawful(lib) && data.rollRate <= rollRate
    ensures var cmd, cmd' := Control(LawOf(lib), st, data), Control(LawOf(lib), st, data.(rollRate := rollRate));
            && Convertible(cmd.angle) && Convertible(cmd'.angle)
            && MIN_SERVO_POSITION_TICKS <= Ticks(cmd'.angle) <= Ticks(cmd.angle) <= MAX_SERVO_POSITION_TICKS
  {
    var x := Correction(st.integrator, st.lastError, Error(data.rollRate));
    var x' := Correction(st.integrator, st.lastError, Error(rollRate));
    var data' := data.(rollRate := rollRate);
    EstimateMonotone(lib, x', x, data');
    assert EstimateAlpha(lib, x, data') == EstimateAlpha(lib, x, data);
    ClampMonotone(EstimateAlpha(lib, x', data'), EstimateAlpha(lib, x, data));
    ClampedAngleConverts(EstimateAlpha(lib, x, data));
    ClampedAngleConverts(EstimateAlpha(lib, x', data'));
    TicksMonotone(ClampAngle(EstimateAlpha(lib, x', data')), ClampAngle(EstimateAlpha(lib, x, data)));
  }

  function IntegrateErrors(integrator: real, errors: seq<real>): real
    decreases |errors|
  {
    if errors == [] then integrator else IntegrateErrors(NextIntegrator(integrator, errors[0]), errors[1..])
  }

  /**
   * After n errors of at least e the integrator has left any wind-up behind: it is at least min(10000, start + n*e).
   */
  lemma {:induction false} AntiWindup(integrator: real, errors: seq<real>, e: real)
    requires INTEGRATOR_MIN <= integrator <= INTEGRATOR_MAX && e >= 0.0
    requires forall i :: 0 <= i < |errors| ==> errors[i] >= e
    ensures var r := IntegrateErrors(integrator, errors);
            INTEGRATOR_MIN <= r <= INTEGRATOR_MAX
            && (r == INTEGRATOR_MAX || r >= integrator + |errors| as real * e)
    decreases |errors|
  {
    if errors != [] {
      AntiWindup(NextIntegrator(integrator, errors[0]), errors[1..], e);
      assert |errors| as real * e == |errors[1..]| as real * e + e;
      assert |errors[1..]| as real * e >= 0.0;
    }
  }

  /** And after n errors of at most -e it is at most max(-10000, start - n*e). */
  lemma {:induction false} AntiWindupBelow(integrator: real, errors: seq<real>, e: real)
    requires INTEGRATOR_MIN <= integrator <= INTEGRATOR_MAX && e >= 0.0
    requires forall i :: 0 <= i < |errors| ==> errors[i] <= -e
    ensures var r := IntegrateErrors(integrator, errors);
            INTEGRATOR_MIN <= r <= INTEGRATOR_MAX
            && (r == INTEGRATOR_MIN || r <= integrator - |errors| as real * e)
    decreases |errors|
  {
    if errors != [] {
      AntiWindupBelow(NextIntegrator(integrator, errors[0]), errors[1..], e);
      assert |errors| as real * e == |errors[1..]| as real * e + e;
      assert |errors[1..]| as real * e >= 0.0;
    }
  }

  function Sum(xs: seq<real>): real {
    if xs == [] then 0.0 else xs[0] + Sum(xs[1..])
  }

  /** While no limit is reached the integrator is the exact sum. */
  lemma {:induction false} Unsaturated(integrator: real, errors: seq<real>)
    requires forall n :: 0 <= n <= |errors| ==> -10000.0 <= integrator + Sum(errors[..n]) <= 10000.0
    ensures IntegrateErrors(integrator, errors) == integrator + Sum(errors)
    decreases |errors|
  {
    if errors != [] {
      var next, rest := integrator + errors[0], errors[1..];
      assert errors[..1][1..] == [];
      assert Sum(errors[..1]) == errors[0];
      forall n | 0 <= n <= |rest|
        ensures next + Sum(rest[..n]) == integrator + Sum(errors[..n + 1])
      {
        assert errors[..n + 1][1..] == rest[..n];
      }
      Unsaturated(next, rest);
    }
  }

  // ---------------------------------------------------------------- messages

  function SetArmed(st: RcState, arm: bool): RcState {
    st.(armed := arm, enableServo := arm)
  }

  function OnUmbilical(st: RcState, id: string, detect: byte, timestamp: seq<byte>): RcState {
    if id != "RNHU" then st
    else
      var timeout := if !st.launched && detect == 0 then PsasTime.Decoded(timestamp) + TIMEOUT else st.timeout;
      st.(launched := detect == 0, timeout := timeout)
  }

  function CheckTimeout(st: RcState, timestamp: seq<byte>): Handled {
    if st.launched && st.enableServo && PsasTime.Decoded(timestamp) > st.timeout then
      Handled(st.(enableServo := false), [CanardCommand(false, 0.0)])
    else Handled(st, [])
  }

  function OnState(law: CanardLaw, st: RcState, id: string, timestamp: seq<byte>, data: StateData): Handled {
    var checked := CheckTimeout(st, timestamp);
    if !checked.st.enableServo || id != "VSTE" then checked
    else
      var error := Error(data.rollRate);
      Handled(checked.st.(lastError := error, integrator := NextIntegrator(checked.st.integrator, error)),
              checked.sent + [Control(law, checked.st, data)])
  }

  function OnSignal(st: RcState, signal: Arm.Signal): Handled {
    match signal
    case ARM => Handled(SetArmed(st, true), [])
    case SAFE => Handled(SetArmed(st, false), [CanardCommand(false, 0.0)])
  }

  /** A test datagram that is a prefix of "ENABLE" and its NUL, or begins with them. */
  predicate EnableBytes(buffer: seq<byte>) {
    buffer <= CString("ENABLE") || CString("ENABLE") <= buffer
  }

  /** The same for "DISABLE"; the empty datagram is taken for ENABLE. */
  predicate DisableBytes(buffer: seq<byte>) {
    buffer != [] && (buffer <= CString("DISABLE") || CString("DISABLE") <= buffer)
  }

  /** What a test datagram does, by its bytes. */
  lemma TestCommandBytes(st: RcState, buffer: seq<byte>)
    requires !st.armed
    ensures EnableBytes(buffer) ==> !DisableBytes(buffer)
    ensures var done := OnTestCommand(st, buffer);
            if EnableBytes(buffer) then done == Handled(st.(enableServo := true), [])
            else if DisableBytes(buffer) then done == Handled(st.(enableServo := false), [RollServoData(0.0, true)])
            else done == Handled(st, [])
  {
    hide Selects;
    SelectsIsPrefix(buffer, "ENABLE");
    SelectsIsPrefix(buffer, "DISABLE");
    if buffer != [] {
      assert CString("ENABLE")[0] == 69 && CString("DISABLE")[0] == 68;
    }
  }

  function OnTestCommand(st: RcState, buffer: seq<byte>): Handled {
    if st.armed then Handled(st, [])
    else if Selects(buffer, CString("ENABLE")) then Handled(st.(enableServo := true), [])
    else if Selects(buffer, CString("DISABLE")) then Handled(st.(enableServo := false), [CanardCommand(false, 0.0)])
    else Handled(st, [])
  }

  // ---------------------------------------------------------------- the module's variables

  class RollControl {
    var lastError: real
    var integrator: real
    var enableServo: bool
    var armed: bool
    var launched: bool
    var timeout: nat
    /** The commands sent to the roll servo so far. */
    var sent: seq<RollServoData>

    function State(): RcState
      reads this
    {
      RcState(armed, enableServo, launched, timeout, lastError, integrator)
    }

    constructor ()
      ensures State() == INITIAL && sent == []
    {
      lastError, integrator, launched, timeout, sent := 0.0, 0.0, false, 0, [];
      armed, enableServo := false, false;
    }

    method SetServoEnable(enable: bool)
      modifies this`enableServo
      ensures enableServo == enable
    {
      enableServo := enable;
    }

    method SetArmedState(arm: bool)
      modifies this`armed, this`enableServo
      ensures State() == SetArmed(old(State()), arm)
    {
      armed := arm;
      SetServoEnable(arm);
    }

    method SetCanardAngle(degrees: real)
      modifies this`sent
      ensures sent == old(sent) + [CanardCommand(enableServo, degrees)]
    {
      var clamped := if degrees < MIN_CANARD_ANGLE then MIN_CANARD_ANGLE
                     else if degrees > MAX_CANARD_ANGLE then MAX_CANARD_ANGLE else degrees;
      sent := sent + [RollServoData(clamped, !enableServo)];
    }

    method RcRawUmb(id: string, timestamp: seq<byte>, detect: byte)
      modifies this`launched, this`timeout
      ensures State() == OnUmbilical(old(State()), id, detect, timestamp)
    {
      if id != "RNHU" {
        return;
      }
      if !launched && detect == 0 {
        timeout := PsasTime.Decoded(timestamp) + TIMEOUT;
      }
      launched := detect == 0;
    }

    method CheckTimeoutNow(timestamp: seq<byte>)
      modifies this`enableServo, this`sent
      ensures State() == CheckTimeout(old(State()), timestamp).st
      ensures sent == old(sent) + CheckTimeout(old(State()), timestamp).sent
    {
      if !launched || !enableServo {
        return;
      }
      if PsasTime.Decoded(timestamp) > timeout {
        SetServoEnable(false);
        SetCanardAngle(0.0);
      }
    }

    method RcReceiveState(lib: MathLib, id: string, timestamp: seq<byte>, data: StateData)
      requires Lawful(lib)
      modifies this
      ensures State() == OnState(LawOf(lib), old(State()), id, timestamp, data).st
      ensures sent == old(sent) + OnState(LawOf(lib), old(State()), id, timestamp, data).sent
    {
      hide EstimateAlpha;
      CheckTimeoutNow(timestamp);
      if !enableServo {
        return;
      }
      if id != "VSTE" {
        return;
      }

      var error := PID_TARGET - data.rollRate;
      var proportional := KP * error;
      var integral := KI * integrator;
      var derivative := KD * (error - lastError);
      var correction := proportional + integral + derivative;
      lastError := error;

      integrator := integrator + error;
      if integrator > INTEGRATOR_MAX {
        integrator := INTEGRATOR_MAX;
      } else if integrator < INTEGRATOR_MIN {
        integrator := INTEGRATOR_MIN;
      }

      var output := EstimateAlpha(lib, correction, data);
      SetCanardAngle(output);
    }

    method RcReceiveArm(signal: Arm.Signal)
      modifies this
      ensures State() == OnSignal(old(State()), signal).st
      ensures sent == old(sent) + OnSignal(old(State()), signal).sent
    {
      match signal {
        case ARM =>
          SetArmedState(true);
        case SAFE =>
          SetArmedState(false);
          SetCanardAngle(0.0);
      }
    }

    method RcRawTestrc(data: seq<byte>)
      modifies this`enableServo, this`sent
      ensures State() == OnTestCommand(old(State()), data).st
      ensures sent == old(sent) + OnTestCommand(old(State()), data).sent
    {
      hide Selects;
      if !armed {
        if Selects(data, CString("ENABLE")) {
          SetServoEnable(true);
        } else if Selects(data, CString("DISABLE")) {
          SetServoEnable(false);
          SetCanardAngle(0.0);
        }
      }
    }
  }
}
