/**
 * What arming and roll control do, as functions of the messages received alone: who is armed and enabled, what the
 * integrator holds, and every servo command with its angle. FlightSafety's machine is proved to follow them.
 */
module ControlHistory {
  import opened Bytes
  import opened FinLaw
  import opened RollServo
  import opened FlightSafety
  import Arm
  import RollControl
  import PsasTime

  // ---------------------------------------------------------------- what the history says

  /** The sensor lock is off, or the last 100 samples were upright and the GPS has a fix. */
  predicate MayArm(h: seq<Event>) {
    !SensorLock(h) || (GpsFix(h) && LastUpright(ImuSamples(h), 100))
  }

  /** The latest command obeyed among ARM and SAFE was ARM. */
  predicate ArmedBy(h: seq<Event>) {
    h != [] &&
    var front, e := h[..|h| - 1], Last(h);
    if e.ArmDatagram? && Arm.ArmBytes(e.buffer) && MayArm(front) then true
    else if e.ArmDatagram? && Arm.SafeBytes(e.buffer) then false
    else ArmedBy(front)
  }

  /** The umbilical is off, and the stamp is later than 120 s after it was disconnected. */
  ghost predicate Late(h: seq<Event>, stamp: seq<byte>) {
    && Disconnected(h)
    && exists k: nat :: LatestDisconnect(h, k)
                        && PsasTime.Decoded(stamp) > PsasTime.Decoded(h[k].timestamp) + 120_000_000_000
  }

  /** The latest among ARM, SAFE, the test commands received while not armed, and the timeout, enabled the servo. */
  ghost predicate EnabledBy(h: seq<Event>) {
    h != [] &&
    var front, e := h[..|h| - 1], Last(h);
    if e.ArmDatagram? && Arm.ArmBytes(e.buffer) && MayArm(front) then true
    else if e.ArmDatagram? && Arm.SafeBytes(e.buffer) then false
    else if e.TestDatagram? && !ArmedBy(front) && RollControl.EnableBytes(e.buffer) then true
    else if e.TestDatagram? && !ArmedBy(front) && RollControl.DisableBytes(e.buffer) then false
    else if e.StateMessage? && Late(front, e.timestamp) then false
    else EnabledBy(front)
  }

  /** A message that is answered with an angle. */
  ghost predicate Steers(h: seq<Event>, e: Event) {
    e.StateMessage? && e.id == "VSTE" && EnabledBy(h) && !Late(h, e.timestamp)
  }

  function Limited(x: real): real {
    if x > 10000.0 then 10000.0 else if x < -10000.0 then -10000.0 else x
  }

  /** The roll rates answered so far, subtracted one after the other within the limits. */
  ghost function Integral(h: seq<Event>): real {
    if h == [] then 0.0
    else
      var front, e := h[..|h| - 1], Last(h);
      if Steers(front, e) then Limited(Integral(front) - e.data.rollRate) else Integral(front)
  }

  /** The angle for a state message: five times the roll rate and a hundredth of the integral, against the roll. */
  function Angle(law: CanardLaw, integral: real, data: StateData): real
  {
    ClampAngle(law(0.01 * integral - 5.0 * data.rollRate, data))
  }

  const DISABLE := RollServoData(0.0, true)

  /** The servo commands made for one more message. */
  ghost function NewCommands(law: CanardLaw, h: seq<Event>, e: Event): seq<RollServoData>
  {
    if e.ArmDatagram? && Arm.SafeBytes(e.buffer) then [DISABLE]
    else if e.TestDatagram? && !ArmedBy(h) && RollControl.DisableBytes(e.buffer) then [DISABLE]
    else if e.StateMessage? && EnabledBy(h) && Late(h, e.timestamp) then [DISABLE]
    else if Steers(h, e) then [RollServoData(Angle(law, Integral(h), e.data), false)]
    else []
  }

  // ---------------------------------------------------------------- one message

  lemma ArmStep(law: CanardLaw, m: Machine, e: Event)
    requires e.ArmDatagram?
    ensures var t, rc := Step(law, m, e), m.rc;
            && t.m.rc.integrator == rc.integrator
            && if Arm.ArmBytes(e.buffer) && Arm.SensorsAllowLaunch(m.arm) then
                 t.m.rc.armed && t.m.rc.enableServo && t.rolls == []
               else if Arm.SafeBytes(e.buffer) then !t.m.rc.armed && !t.m.rc.enableServo && t.rolls == [DISABLE]
               else t.m.rc == rc && t.rolls == []
  {
    hide Arm.Command, Arm.ArmBytes, Arm.SafeBytes, Arm.SensorsAllowLaunch;
    Arm.CommandBytes(e.buffer);
  }

  lemma TestStep(law: CanardLaw, m: Machine, e: Event)
    requires e.TestDatagram?
    ensures var t, rc := Step(law, m, e), m.rc;
            if !rc.armed && RollControl.EnableBytes(e.buffer) then t.m.rc == rc.(enableServo := true) && t.rolls == []
            else if !rc.armed && RollControl.DisableBytes(e.buffer) then
              t.m.rc == rc.(enableServo := false) && t.rolls == [DISABLE]
            else t.m.rc == rc && t.rolls == []
  {
    hide RollControl.OnTestCommand, RollControl.EnableBytes, RollControl.DisableBytes;
    if m.rc.armed {
      WhileArmed(m.rc, e.buffer);
    } else {
      RollControl.TestCommandBytes(m.rc, e.buffer);
    }
  }

  lemma StateStep(law: CanardLaw, m: Machine, e: Event)
    requires e.StateMessage?
    ensures var t, rc := Step(law, m, e), m.rc;
            var late := rc.launched && PsasTime.Decoded(e.timestamp) > rc.timeout;
            && t.m.rc.armed == rc.armed && t.m.rc.enableServo == (rc.enableServo && !late)
            && if rc.enableServo && !late && e.id == "VSTE" then
                 && t.rolls == [RollServoData(Angle(law, rc.integrator, e.data), false)]
                 && t.m.rc.integrator == Limited(rc.integrator - e.data.rollRate)
               else
                 && t.rolls == (if rc.enableServo && late then [DISABLE] else [])
                 && t.m.rc.integrator == rc.integrator
  {
    hide PsasTime.Decoded;
    assert RollControl.Correction(m.rc.integrator, m.rc.lastError, RollControl.Error(e.data.rollRate)) ==
           0.01 * m.rc.integrator - 5.0 * e.data.rollRate;
  }

  lemma OtherStep(law: CanardLaw, m: Machine, e: Event)
    requires !e.ArmDatagram? && !e.TestDatagram? && !e.StateMessage?
    ensures var t, rc := Step(law, m, e), m.rc;
            && t.m.rc.armed == rc.armed && t.m.rc.enableServo == rc.enableServo && t.m.rc.integrator == rc.integrator
            && t.rolls == []
  {
  }

  // ---------------------------------------------------------------- whole runs

  lemma LatestIsUnique(h: seq<Event>, j: nat, k: nat)
    requires LatestDisconnect(h, j) && LatestDisconnect(h, k)
    ensures j == k
  {
  }

  lemma LateMeans(law: CanardLaw, h: seq<Event>, stamp: seq<byte>)
    ensures var rc := Run(law, h).m.rc; rc.launched && PsasTime.Decoded(stamp) > rc.timeout <==> Late(h, stamp)
  {
    hide Run, PsasTime.Decoded, Disconnected;
    LaunchHistory(law, h);
    if Disconnected(h) {
      var k: nat :| LatestDisconnect(h, k)
               && Run(law, h).m.rc.timeout == PsasTime.Decoded(h[k].timestamp) + RollControl.TIMEOUT;
      if Late(h, stamp) {
        var j: nat :| LatestDisconnect(h, j)
                 && PsasTime.Decoded(stamp) > PsasTime.Decoded(h[j].timestamp) + 120_000_000_000;
        LatestIsUnique(h, j, k);
      }
    }
  }

  lemma SensorsMean(law: CanardLaw, h: seq<Event>)
    ensures Arm.SensorsAllowLaunch(Run(law, h).m.arm) <==> MayArm(h)
  {
    hide Run, SensorLock, GpsFix, LastUpright, ImuSamples;
    SensorHistory(law, h);
    TrailingMeans(ImuSamples(h), 100);
  }

  /** In every run, armed, enabled and the integrator are what the history says. */
  lemma {:induction false} ControlOfRun(law: CanardLaw, h: seq<Event>)
    ensures var rc := Run(law, h).m.rc;
            rc.armed == ArmedBy(h) && rc.enableServo == EnabledBy(h) && rc.integrator == Integral(h)
  {
    hide Step, MayArm, Late, Arm.ArmBytes, Arm.SafeBytes, RollControl.EnableBytes, RollControl.DisableBytes;
    hide Arm.SensorsAllowLaunch, Limited, Angle;
    if h != [] {
      var front, e := h[..|h| - 1], Last(h);
      ControlOfRun(law, front);
      OneStep(law, Run(law, front).m, front, e);
    }
  }

  /** A step from a state that is what the history says. */
  lemma OneStep(law: CanardLaw, m: Machine, h: seq<Event>, e: Event)
    requires m == Run(law, h).m
    requires m.rc.armed == ArmedBy(h) && m.rc.enableServo == EnabledBy(h) && m.rc.integrator == Integral(h)
    ensures var t := Step(law, m, e);
            && t.rolls == NewCommands(law, h, e)
            && t.m.rc.armed == ArmedBy(h + [e]) && t.m.rc.enableServo == EnabledBy(h + [e])
            && t.m.rc.integrator == Integral(h + [e])
  {
    hide Step, MayArm, Late, Arm.ArmBytes, Arm.SafeBytes, RollControl.EnableBytes, RollControl.DisableBytes;
    hide Arm.SensorsAllowLaunch, Limited, Angle, Run, PsasTime.Decoded;
    assert (h + [e])[..|h|] == h && Last(h + [e]) == e;
    if e.ArmDatagram? {
      ArmStep(law, m, e);
      SensorsMean(law, h);
      ArmOrSafe(e.buffer);
    } else if e.TestDatagram? {
      TestStep(law, m, e);
      EnableOrDisable(e.buffer);
    } else if e.StateMessage? {
      StateStep(law, m, e);
      LateMeans(law, h, e.timestamp);
    } else {
      OtherStep(law, m, e);
    }
  }

  lemma ArmOrSafe(buffer: seq<byte>)
    ensures !(Arm.ArmBytes(buffer) && Arm.SafeBytes(buffer))
  {
    hide Arm.Command, Arm.ArmBytes, Arm.SafeBytes;
    Arm.CommandBytes(buffer);
  }

  lemma EnableOrDisable(buffer: seq<byte>)
    ensures !(RollControl.EnableBytes(buffer) && RollControl.DisableBytes(buffer))
  {
    hide RollControl.EnableBytes, RollControl.DisableBytes;
    RollControl.TestCommandBytes(RollControl.INITIAL, buffer);
  }

  /** In every run, one more message adds exactly the commands the history calls for. */
  lemma CommandsExactly(law: CanardLaw, h: seq<Event>, e: Event)
    ensures Run(law, h + [e]).rolls == Run(law, h).rolls + NewCommands(law, h, e)
  {
    hide Run, Step, NewCommands, ArmedBy, EnabledBy, Integral;
    ControlOfRun(law, h);
    OneStep(law, Run(law, h).m, h, e);
    RunSnoc(law, h, e);
  }

  // ---------------------------------------------------------------- consecutive state messages

  /** The roll rates of state messages, added up. */
  function SumOfRates(states: seq<Event>): real
    requires forall e :: e in states ==> e.StateMessage?
  {
    if states == [] then 0.0 else SumOfRates(states[..|states| - 1]) + Last(states).data.rollRate
  }

  /**
   * State messages that are all controlled get exactly one command each, none of which disables the servo: the k-th is
   * the canard law's angle, clamped, for -5 times its roll rate plus a hundredth of the integrator before it.
   */
  lemma {:induction false} ControlledCommands(lib: MathLib, h: seq<Event>, states: seq<Event>)
    requires Lawful(lib) && Controlled(Run(LawOf(lib), h).m.rc, states)
    ensures var before, after := Run(LawOf(lib), h).rolls, Run(LawOf(lib), h + states).rolls;
            && |after| == |before| + |states| && after[..|before|] == before
            && forall k: nat :: k < |states| ==>
                 var data, integrator := states[k].data, Run(LawOf(lib), h + states[..k]).m.rc.integrator;
                 after[|before| + k] ==
                 RollServoData(ClampAngle(EstimateAlpha(lib, -5.0 * data.rollRate + 0.01 * integrator, data)), false)
  {
    hide Step, PsasTime.Decoded, EstimateAlpha, ClampAngle, Run;
    if states == [] {
      assert h + states == h;
    } else {
      var n := |states| - 1;
      var front, e := states[..n], states[n];
      assert h + states == (h + front) + [e];
      ControlledCommands(lib, h, front);
      StatesIntegrate(LawOf(lib), h, front);
      var m := Run(LawOf(lib), h + front).m;
      RunSnoc(LawOf(lib), h + front, e);
      StateStep(LawOf(lib), m, e);
      assert 0.01 * m.rc.integrator - 5.0 * e.data.rollRate == -5.0 * e.data.rollRate + 0.01 * m.rc.integrator;
      forall k: nat | k < n
        ensures front[..k] == states[..k]
      {
      }
    }
  }

  /** While no limit is reached, the integrator is its initial value less the roll rates controlled since. */
  lemma {:induction false} IntegralUnsaturated(law: CanardLaw, h: seq<Event>, states: seq<Event>)
    requires Controlled(Run(law, h).m.rc, states)
    requires forall e :: e in states ==> e.StateMessage?
    requires forall n :: 0 <= n <= |states| ==>
               -10000.0 <= Run(law, h).m.rc.integrator - SumOfRates(states[..n]) <= 10000.0
    ensures Run(law, h + states).m.rc.integrator == Run(law, h).m.rc.integrator - SumOfRates(states)
  {
    hide Step, PsasTime.Decoded, Run;
    if states == [] {
      assert h + states == h;
    } else {
      var n := |states| - 1;
      var front, e := states[..n], states[n];
      assert h + states == (h + front) + [e];
      forall k | 0 <= k <= n
        ensures front[..k] == states[..k]
      {
      }
      assert states[..|states|] == states;
      IntegralUnsaturated(law, h, front);
      StatesIntegrate(law, h, front);
      RunSnoc(law, h + front, e);
      StateStep(law, Run(law, h + front).m, e);
    }
  }

  /**
   * Two histories that differ only in the roll rate of a last, controlled state message: the one with the higher rate
   * gets no more servo ticks, within the pulse limits.
   */
  lemma RollMonotone(lib: MathLib, h: seq<Event>, e: Event, e': Event)
    requires Lawful(lib) && Controlled(Run(LawOf(lib), h).m.rc, [e]) && e.StateMessage? && e'.StateMessage?
    requires e' == e.(data := e.data.(rollRate := e'.data.rollRate)) && e.data.rollRate <= e'.data.rollRate
    ensures var rolls, rolls' := Run(LawOf(lib), h + [e]).rolls, Run(LawOf(lib), h + [e']).rolls;
            && |rolls| == |rolls'| == |Run(LawOf(lib), h).rolls| + 1
            && Convertible(Last(rolls).angle) && Convertible(Last(rolls').angle)
            && 18481 <= Ticks(Last(rolls').angle) <= Ticks(Last(rolls).angle) <= 31923
  {
    hide Step, PsasTime.Decoded, EstimateAlpha, Convertible, Ticks, Run;
    var rc := Run(LawOf(lib), h).m.rc;
    assert [e][0] == e;
    RunSnoc(LawOf(lib), h, e);
    RunSnoc(LawOf(lib), h, e');
    StateStep(LawOf(lib), Run(LawOf(lib), h).m, e);
    StateStep(LawOf(lib), Run(LawOf(lib), h).m, e');
    RollControl.PipelineMonotone(lib, rc, e.data, e'.data.rollRate);
    assert RollControl.Correction(rc.integrator, rc.lastError, RollControl.Error(e.data.rollRate)) ==
           0.01 * rc.integrator - 5.0 * e.data.rollRate;
    assert RollControl.Correction(rc.integrator, rc.lastError, RollControl.Error(e'.data.rollRate)) ==
           0.01 * rc.integrator - 5.0 * e'.data.rollRate;
    TickScale();
  }
}
