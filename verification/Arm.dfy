/** The arming manager of src/arm.c: the sensor lock and the commands that arm and safe the rocket. */
module Arm {
  import opened Bytes
  import opened Commands

  datatype Signal = ARM | SAFE

  datatype ArmCommand = Arm | Safe | EnableLock | DisableLock | UnknownCommand

  datatype ArmState = ArmState(upright: nat, gpsLocked: bool, slockEnable: bool)

  const UPRIGHT_SAMPLES := 100
  const ACCEL_NOISE_BOUND := 0.1
  const VENUS_A8_FIX_MODE_3D := 2
  const G_PER_BIT := 0.00333

  /** The acceleration fields of an IMU sample, as numbers read without byte swapping. */
  datatype Sample = Sample(accX: int, accY: int, accZ: int)

  predicate About(a: real, b: real) {
    var d := a - b;
    (if d < 0.0 then -d else d) < ACCEL_NOISE_BOUND
  }

  predicate IsUpright(s: Sample) {
    && About(s.accX as real * G_PER_BIT, -1.0)
    && About(s.accY as real * G_PER_BIT, 0.0)
    && About(s.accZ as real * G_PER_BIT, 0.0)
  }

  /** The test in raw counts. */
  lemma UprightCounts(s: Sample)
    ensures IsUpright(s) <==> -330 <= s.accX <= -271 && -30 <= s.accY <= 30 && -30 <= s.accZ <= 30
  {
  }

  /** The first command of the list that a datagram selects. */
  function Command(buffer: seq<byte>): ArmCommand {
    if Selects(buffer, CString("#YOLO")) then ArmCommand.Arm
    else if Selects(buffer, CString("#SAFE")) then Safe
    else if Selects(buffer, CString("EN_SLOCK")) then EnableLock
    else if Selects(buffer, CString("DI_SLOCK")) then DisableLock
    else UnknownCommand
  }

  /** The order of the tests matters only for the empty datagram and "#", which both arm. */
  lemma AmbiguousCommands(buffer: seq<byte>)
    ensures (Selects(buffer, CString("#YOLO")) && Selects(buffer, CString("#SAFE"))) <==> buffer == [] || buffer == [35]
    ensures buffer == [] || buffer == [35] ==> Command(buffer) == ArmCommand.Arm
    ensures buffer != [] ==>
              (Command(buffer) == EnableLock <==> Selects(buffer, CString("EN_SLOCK")))
              && (Command(buffer) == DisableLock <==> Selects(buffer, CString("DI_SLOCK")))
  {
    hide Selects;
    SelectsIsPrefix(buffer, "#YOLO");
    SelectsIsPrefix(buffer, "#SAFE");
    SelectsIsPrefix(buffer, "EN_SLOCK");
    SelectsIsPrefix(buffer, "DI_SLOCK");
    if buffer != [] {
      assert buffer[0] == buffer[..1][0];
    }
    if |buffer| >= 2 {
      assert CString("#YOLO")[1] == 89 && CString("#SAFE")[1] == 83;
    }
  }

  // ---------------------------------------------------------------- the commands as bytes

  /** A prefix of "#YOLO" and its NUL, or a datagram that begins with them. */
  predicate ArmBytes(buffer: seq<byte>) {
    buffer <= CString("#YOLO") || CString("#YOLO") <= buffer
  }

  /** The same for "#SAFE", but not the prefixes that it shares with "#YOLO". */
  predicate SafeBytes(buffer: seq<byte>) {
    (|buffer| >= 2 && buffer <= CString("#SAFE")) || CString("#SAFE") <= buffer
  }

  predicate EnableLockBytes(buffer: seq<byte>) {
    buffer != [] && (buffer <= CString("EN_SLOCK") || CString("EN_SLOCK") <= buffer)
  }

  predicate DisableLockBytes(buffer: seq<byte>) {
    buffer != [] && (buffer <= CString("DI_SLOCK") || CString("DI_SLOCK") <= buffer)
  }

  /** The datagrams that select each command. */
  lemma CommandBytes(buffer: seq<byte>)
    ensures Command(buffer) == ArmCommand.Arm <==> ArmBytes(buffer)
    ensures Command(buffer) == Safe <==> SafeBytes(buffer)
    ensures Command(buffer) == EnableLock <==> EnableLockBytes(buffer)
    ensures Command(buffer) == DisableLock <==> DisableLockBytes(buffer)
  {
    hide Selects;
    AmbiguousCommands(buffer);
    SelectsIsPrefix(buffer, "#YOLO");
    SelectsIsPrefix(buffer, "#SAFE");
    SelectsIsPrefix(buffer, "EN_SLOCK");
    SelectsIsPrefix(buffer, "DI_SLOCK");
    OwnCommands(buffer);
  }

  /** No datagram of two bytes or more is a prefix of both commands, or begins with both. */
  lemma OwnCommands(buffer: seq<byte>)
    ensures CString("#SAFE") <= buffer ==> |buffer| >= 2
    ensures buffer == [] || buffer == [35] ==> buffer <= CString("#YOLO")
  {
    assert CString("#YOLO")[..1] == [35];
  }

  function OnImu(st: ArmState, s: Sample): ArmState {
    if !IsUpright(s) then st.(upright := 0)
    else if st.upright < UPRIGHT_SAMPLES then st.(upright := st.upright + 1)
    else st
  }

  function OnGps(st: ArmState, id: string, fixMode: byte): ArmState {
    if id != "V8A8" then st else st.(gpsLocked := fixMode >= VENUS_A8_FIX_MODE_3D)
  }

  predicate SensorsAllowLaunch(st: ArmState) {
    (st.gpsLocked && st.upright == UPRIGHT_SAMPLES) || !st.slockEnable
  }

  datatype Handled = Handled(st: ArmState, signals: seq<Signal>)

  function OnCommand(st: ArmState, buffer: seq<byte>): Handled {
    match Command(buffer)
    case Arm => Handled(st, if SensorsAllowLaunch(st) then [ARM] else [])
    case Safe => Handled(st, [SAFE])
    case EnableLock => Handled(st.(slockEnable := true), [])
    case DisableLock => Handled(st.(slockEnable := false), [])
    case UnknownCommand => Handled(st, [])
  }

  const INITIAL := ArmState(0, false, true)

  class ArmManager {
    var slockEnable: bool
    var gpsLocked: bool
    var upright: nat
    /** The signals sent so far. */
    var signals: seq<Signal>

    function State(): ArmState
      reads this
    {
      ArmState(upright, gpsLocked, slockEnable)
    }

    constructor ()
      ensures State() == INITIAL && signals == []
    {
      slockEnable, gpsLocked, upright, signals := true, false, 0, [];
    }

    method ArmReceiveImu(data: Sample)
      modifies this`upright
      ensures State() == OnImu(old(State()), data)
    {
      var x := data.accX as real * G_PER_BIT;
      var y := data.accY as real * G_PER_BIT;
      var z := data.accZ as real * G_PER_BIT;
      if !About(x, -1.0) || !About(y, 0.0) || !About(z, 0.0) {
        upright := 0;
      } else if upright < UPRIGHT_SAMPLES {
        upright := upright + 1;
      }
    }

    method ArmReceiveGps(id: string, fixMode: byte)
      modifies this`gpsLocked
      ensures State() == OnGps(old(State()), id, fixMode)
    {
      if id != "V8A8" {
        return;
      }
      if fixMode >= VENUS_A8_FIX_MODE_3D {
        gpsLocked := true;
      } else {
        gpsLocked := false;
      }
    }

    method ArmRawIn(buffer: seq<byte>)
      modifies this`signals, this`slockEnable
      ensures State() == OnCommand(old(State()), buffer).st
      ensures signals == old(signals) + OnCommand(old(State()), buffer).signals
    {
      hide Selects;
      if Selects(buffer, CString("#YOLO")) {
        var accelLocked := upright == UPRIGHT_SAMPLES;
        var sensorsAllowLaunch := (gpsLocked && accelLocked) || !slockEnable;
        if sensorsAllowLaunch {
          signals := signals + [ARM];
        }
      } else if Selects(buffer, CString("#SAFE")) {
        signals := signals + [SAFE];
      } else if Selects(buffer, CString("EN_SLOCK")) {
        slockEnable := true;
      } else if Selects(buffer, CString("DI_SLOCK")) {
        slockEnable := false;
      }
    }
  }
}
