/**
 * Arming, servo enable and flight timeout over whole runs: src/arm.c and src/rollcontrol.c connected as in main.miml.
 * The theorems relate every reachable state and every output to the messages received so far.
 */
module FlightSafety {
  import opened Bytes
  import opened Commands
  import opened FinLaw
  import opened RollServo
  import Arm
  import RollControl
  import PsasTime

  datatype Event =
    | Imu(sample: Arm.Sample)
    | Gps(id: string, fixMode: byte)
    | ArmDatagram(buffer: seq<byte>)
    | TestDatagram(buffer: seq<byte>)
    | Umbilical(id: string, detect: byte, timestamp: seq<byte>)
    | StateMessage(id: string, timestamp: seq<byte>, data: StateData)

  datatype Machine = Machine(arm: Arm.ArmState, rc: RollControl.RcState)

  const INITIAL := Machine(Arm.INITIAL, RollControl.INITIAL)

  /** A state with the arming signals and roll commands that led to it. */
  datatype Trace = Trace(m: Machine, signals: seq<Arm.Signal>, rolls: seq<RollServoData>)

  /** One message; an arming signal reaches the roll controller before the next message. */
  function Step(law: CanardLaw, m: Machine, e: Event): Trace
  {
    match e
    case Imu(sample) => Trace(m.(arm := Arm.OnImu(m.arm, sample)), [], [])
    case Gps(id, fixMode) => Trace(m.(arm := Arm.OnGps(m.arm, id, fixMode)), [], [])
    case ArmDatagram(buffer) =>
      var handled := Arm.OnCommand(m.arm, buffer);
      if handled.signals == [] then Trace(m.(arm := handled.st), [], [])
      else
        var rc := RollControl.OnSignal(m.rc, handled.signals[0]);
        Trace(Machine(handled.st, rc.st), handled.signals, rc.sent)
    case TestDatagram(buffer) =>
      var rc := RollControl.OnTestCommand(m.rc, buffer);
      Trace(m.(rc := rc.st), [], rc.sent)
    case Umbilical(id, detect, timestamp) =>
      Trace(m.(rc := RollControl.OnUmbilical(m.rc, id, detect, timestamp)), [], [])
    case StateMessage(id, timestamp, data) =>
      var rc := RollControl.OnState(law, m.rc, id, timestamp, data);
      Trace(m.(rc := rc.st), [], rc.sent)
  }

  function Run(law: CanardLaw, h: seq<Event>): Trace
  {
    if h == [] then Trace(INITIAL, [], [])
    else
      var before := Run(law, h[..|h| - 1]);
      var step := Step(law, before.m, h[|h| - 1]);
      Trace(step.m, before.signals + step.signals, before.rolls + step.rolls)
  }

  lemma RunSnoc(law: CanardLaw, h: seq<Event>, e: Event)
    ensures var before := Run(law, h);
            var step := Step(law, before.m, e);
            Run(law, h + [e]) == Trace(step.m, before.signals + step.signals, before.rolls + step.rolls)
  {
    hide Step;
    assert (h + [e])[..|h|] == h;
  }

  /** The signals and commands of further messages from a given state. */
  function RunFrom(law: CanardLaw, m: Machine, h: seq<Event>): Trace
  {
    if h == [] then Trace(m, [], [])
    else
      var before := RunFrom(law, m, h[..|h| - 1]);
      var step := Step(law, before.m, h[|h| - 1]);
      Trace(step.m, before.signals + step.signals, before.rolls + step.rolls)
  }

  lemma {:induction false} RunSplit(law: CanardLaw, h: seq<Event>, later: seq<Event>)
    ensures var before := Run(law, h);
            var after := RunFrom(law, before.m, later);
            Run(law, h + later) == Trace(after.m, before.signals + after.signals, before.rolls + after.rolls)
  {
    hide Step;
    if later == [] {
      assert h + later == h;
    } else {
      var front := later[..|later| - 1];
      RunSplit(law, h, front);
      RunConcat(law, h, later);
    }
  }

  lemma RunFromOne(law: CanardLaw, m: Machine, e: Event)
    ensures RunFrom(law, m, [e]) == Step(law, m, e)
  {
    hide Step;
    assert [e][..0] == [];
    var t := Step(law, m, e);
    assert [] + t.signals == t.signals && [] + t.rolls == t.rolls;
  }

  // ---------------------------------------------------------------- what the history says

  function ImuSamples(h: seq<Event>): seq<Arm.Sample> {
    if h == [] then []
    else ImuSamples(h[..|h| - 1]) + (if h[|h| - 1].Imu? then [h[|h| - 1].sample] else [])
  }

  function TrailingUpright(samples: seq<Arm.Sample>): nat {
    if samples == [] || !Arm.IsUpright(samples[|samples| - 1]) then 0
    else TrailingUpright(samples[..|samples| - 1]) + 1
  }

  /** The last n samples exist and all pass the upright test. */
  predicate LastUpright(samples: seq<Arm.Sample>, n: nat) {
    |samples| >= n && forall i :: |samples| - n <= i < |samples| ==> Arm.IsUpright(samples[i])
  }

  predicate IsFix(e: Event) {
    e.Gps? && e.id == "V8A8"
  }

  /** The latest V8A8 message reported at least a 3D fix. */
  predicate GpsFix(h: seq<Event>) {
    h != [] && if IsFix(h[|h| - 1]) then h[|h| - 1].fixMode >= Arm.VENUS_A8_FIX_MODE_3D else GpsFix(h[..|h| - 1])
  }

  /** The sensor lock is on unless the latest lock command switched it off. */
  predicate SensorLock(h: seq<Event>) {
    h == [] ||
    var last := h[|h| - 1];
    if last.ArmDatagram? && Arm.EnableLockBytes(last.buffer) then true
    else if last.ArmDatagram? && Arm.DisableLockBytes(last.buffer) then false
    else SensorLock(h[..|h| - 1])
  }

  predicate IsUmbilical(e: Event) {
    e.Umbilical? && e.id == "RNHU"
  }

  /** The latest umbilical message reported a disconnected umbilical. */
  predicate Disconnected(h: seq<Event>) {
    h != [] && if IsUmbilical(h[|h| - 1]) then h[|h| - 1].detect == 0 else Disconnected(h[..|h| - 1])
  }

  /** The umbilical was disconnected by the k-th message. */
  predicate DisconnectAt(h: seq<Event>, k: nat) {
    k < |h| && IsUmbilical(h[k]) && h[k].detect == 0 && !Disconnected(h[..k])
  }

  predicate LatestDisconnect(h: seq<Event>, k: nat) {
    DisconnectAt(h, k) && forall j :: k < j < |h| ==> !DisconnectAt(h, j)
  }

  function Last<T>(s: seq<T>): T
    requires s != []
  {
    s[|s| - 1]
  }

  // ---------------------------------------------------------------- single messages

  lemma StepArm(law: CanardLaw, m: Machine, e: Event)
    ensures Step(law, m, e).m.arm ==
            if e.Imu? then Arm.OnImu(m.arm, e.sample)
            else if e.Gps? then Arm.OnGps(m.arm, e.id, e.fixMode)
            else if e.ArmDatagram? then Arm.OnCommand(m.arm, e.buffer).st
            else m.arm
  {
    hide Arm.Command, Selects;
  }

  lemma StepSignals(law: CanardLaw, m: Machine, e: Event)
    ensures var t := Step(law, m, e);
            && |t.signals| <= 1
            && t.m.rc.armed == if t.signals == [] then m.rc.armed else t.signals[0] == Arm.ARM
  {
    hide Arm.Command, Selects;
  }

  lemma StepLaunch(law: CanardLaw, m: Machine, e: Event)
    ensures var rc := Step(law, m, e).m.rc;
            && rc.launched == (if IsUmbilical(e) then e.detect == 0 else m.rc.launched)
            && rc.timeout == if IsUmbilical(e) && e.detect == 0 && !m.rc.launched
                             then PsasTime.Decoded(e.timestamp) + RollControl.TIMEOUT else m.rc.timeout
  {
    hide Arm.Command, Selects, PsasTime.Decoded;
  }

  /** What happens to the servo enable, and what is sent about it. */
  lemma StepEnable(law: CanardLaw, m: Machine, e: Event)
    ensures var t := Step(law, m, e);
            && |t.rolls| <= 1
            && (!t.m.rc.enableServo ==> (t.rolls == [] ==> !m.rc.enableServo) && (t.rolls != [] ==> t.rolls[0].disable))
            && (t.rolls != [] && !t.rolls[0].disable ==>
                  e.StateMessage? && e.id == "VSTE" && m.rc.enableServo
                  && (m.rc.launched ==> PsasTime.Decoded(e.timestamp) <= m.rc.timeout))
            && (m.rc.armed && !m.rc.enableServo && t.signals == [] ==>
                  t.rolls == [] && t.m.rc.armed && !t.m.rc.enableServo)
            && (t.m.rc.armed && !t.m.rc.enableServo ==>
                  t.signals == []
                  && ((m.rc.armed && !m.rc.enableServo)
                      || (e.StateMessage? && m.rc.armed && m.rc.enableServo && m.rc.launched
                          && PsasTime.Decoded(e.timestamp) > m.rc.timeout)))
  {
    hide Arm.Command, Selects, PsasTime.Decoded;
  }

  // ---------------------------------------------------------------- arming

  lemma {:induction false} TrailingMeans(samples: seq<Arm.Sample>, n: nat)
    ensures TrailingUpright(samples) >= n <==> LastUpright(samples, n)
  {
    hide Arm.IsUpright;
    if samples != [] && n > 0 {
      var front := samples[..|samples| - 1];
      TrailingMeans(front, n - 1);
      if Arm.IsUpright(Last(samples)) && LastUpright(front, n - 1) {
        forall i | |samples| - n <= i < |samples|
          ensures Arm.IsUpright(samples[i])
        {
          assert i < |samples| - 1 ==> samples[i] == front[i];
        }
      }
      if LastUpright(samples, n) {
        assert Arm.IsUpright(samples[|samples| - 1]);
        forall i | |front| - (n - 1) <= i < |front|
          ensures Arm.IsUpright(front[i])
        {
          assert front[i] == samples[i];
        }
      }
    }
  }

  lemma ImuSnoc(h: seq<Event>)
    requires h != []
    ensures var front := h[..|h| - 1];
            TrailingUpright(ImuSamples(h)) ==
            if !Last(h).Imu? then TrailingUpright(ImuSamples(front))
            else if Arm.IsUpright(Last(h).sample) then TrailingUpright(ImuSamples(front)) + 1 else 0
  {
    hide Arm.IsUpright;
    var front := h[..|h| - 1];
    if Last(h).Imu? {
      assert ImuSamples(h)[..|ImuSamples(front)|] == ImuSamples(front);
    } else {
      assert ImuSamples(h) == ImuSamples(front);
    }
  }

  /** The sensor-lock variables are functions of the history: the upright count saturates at 100. */
  lemma {:induction false} SensorHistory(law: CanardLaw, h: seq<Event>)
    ensures var arm := Run(law, h).m.arm;
            var run := TrailingUpright(ImuSamples(h));
            && arm.upright == (if run < Arm.UPRIGHT_SAMPLES then run else Arm.UPRIGHT_SAMPLES)
            && arm.gpsLocked == GpsFix(h)
            && arm.slockEnable == SensorLock(h)
  {
    hide Arm.IsUpright, Arm.Command, ImuSamples, TrailingUpright, Step, Arm.EnableLockBytes, Arm.DisableLockBytes;
    if h == [] {
      NoSamples();
    } else {
      SensorHistory(law, h[..|h| - 1]);
      ImuSnoc(h);
      StepArm(law, Run(law, h[..|h| - 1]).m, Last(h));
      if Last(h).ArmDatagram? {
        Arm.CommandBytes(Last(h).buffer);
      }
    }
  }

  lemma NoSamples()
    ensures TrailingUpright(ImuSamples([])) == 0
  {
  }

  /**
   * A message makes an ARM signal exactly when it is a datagram selecting ARM and either the sensor lock is off, or the
   * last 100 IMU samples were upright and the latest V8A8 message had a 3D fix.
   */
  lemma ArmingRule(law: CanardLaw, h: seq<Event>, e: Event)
    ensures Arm.ARM in Step(law, Run(law, h).m, e).signals <==>
            && e.ArmDatagram? && Arm.ArmBytes(e.buffer)
            && (!SensorLock(h) || (GpsFix(h) && LastUpright(ImuSamples(h), Arm.UPRIGHT_SAMPLES)))
  {
    hide Arm.Command, LastUpright, Run, Arm.ArmBytes, RollControl.OnState;
    if e.ArmDatagram? {
      Arm.CommandBytes(e.buffer);
    }
    SensorHistory(law, h);
    TrailingMeans(ImuSamples(h), Arm.UPRIGHT_SAMPLES);
  }

  /** The roll controller is armed exactly when the last signal forwarded was ARM. */
  lemma {:induction false} ArmedReflectsLastSignal(law: CanardLaw, h: seq<Event>)
    ensures var t := Run(law, h); t.m.rc.armed <==> t.signals != [] && Last(t.signals) == Arm.ARM
  {
    hide Step;
    if h != [] {
      ArmedReflectsLastSignal(law, h[..|h| - 1]);
      StepSignals(law, Run(law, h[..|h| - 1]).m, Last(h));
    }
  }

  // ---------------------------------------------------------------- flight timeout

  lemma DisconnectEarlier(h: seq<Event>, front: seq<Event>, k: nat)
    requires h != [] && front == h[..|h| - 1] && k < |front|
    ensures DisconnectAt(h, k) <==> DisconnectAt(front, k)
  {
    assert h[..k] == front[..k];
  }

  /** Messages of other kinds change nothing about the umbilical. */
  lemma {:induction false} NoUmbilical(h: seq<Event>, later: seq<Event>)
    requires forall e :: e in later ==> !e.Umbilical?
    ensures Disconnected(h + later) == Disconnected(h)
    ensures forall k: nat :: LatestDisconnect(h + later, k) ==> k < |h| && LatestDisconnect(h, k)
  {
    hide LatestDisconnect;
    if later == [] {
      assert h + later == h;
      LatestWithin(h);
    } else {
      var front, last := later[..|later| - 1], Last(later);
      NoUmbilical(h, front);
      assert h + later == (h + front) + [last];
      AnotherMessage(h + front, last);
    }
  }

  lemma LatestWithin(h: seq<Event>)
    ensures forall k: nat :: LatestDisconnect(h, k) ==> k < |h|
  {
  }

  /** What one message does to the umbilical's history. */
  lemma AnotherMessage(h: seq<Event>, e: Event)
    ensures Disconnected(h + [e]) == if IsUmbilical(e) then e.detect == 0 else Disconnected(h)
    ensures forall k: nat :: LatestDisconnect(h + [e], k) ==>
              if IsUmbilical(e) && e.detect == 0 && !Disconnected(h) then k == |h|
              else k < |h| && LatestDisconnect(h, k)
  {
    var h' := h + [e];
    assert h'[..|h|] == h;
    forall k: nat | LatestDisconnect(h', k)
      ensures if IsUmbilical(e) && e.detect == 0 && !Disconnected(h) then k == |h|
              else k < |h| && LatestDisconnect(h, k)
    {
      assert DisconnectAt(h', |h|) <==> IsUmbilical(e) && e.detect == 0 && !Disconnected(h);
      if k < |h| {
        DisconnectEarlier(h', h, k);
        forall j | k < j < |h|
          ensures !DisconnectAt(h, j)
        {
          DisconnectEarlier(h', h, j);
        }
      }
    }
  }

  /** `launched` follows the umbilical, and while it holds the timeout runs from the latest disconnection. */
  lemma {:induction false} LaunchHistory(law: CanardLaw, h: seq<Event>)
    ensures Run(law, h).m.rc.launched == Disconnected(h)
    ensures Disconnected(h) ==>
              exists k: nat :: LatestDisconnect(h, k)
                          && Run(law, h).m.rc.timeout == PsasTime.Decoded(h[k].timestamp) + RollControl.TIMEOUT
  {
    hide Step, PsasTime.Decoded;
    if h != [] {
      var n: nat := |h| - 1;
      var front := h[..n];
      LaunchHistory(law, front);
      StepLaunch(law, Run(law, front).m, h[n]);
      if Disconnected(h) {
        if Disconnected(front) {
          var k: nat :| LatestDisconnect(front, k)
                   && Run(law, front).m.rc.timeout == PsasTime.Decoded(front[k].timestamp) + RollControl.TIMEOUT;
          KeepsLatest(h, front, k);
          assert h[k] == front[k];
        } else {
          assert DisconnectAt(h, n);
          assert LatestDisconnect(h, n);
        }
      }
    }
  }

  lemma KeepsLatest(h: seq<Event>, front: seq<Event>, k: nat)
    requires h != [] && front == h[..|h| - 1] && Disconnected(front) && LatestDisconnect(front, k)
    ensures LatestDisconnect(h, k)
  {
    DisconnectEarlier(h, front, k);
    forall j | k < j < |h|
      ensures !DisconnectAt(h, j)
    {
      if j < |front| {
        DisconnectEarlier(h, front, j);
      }
    }
  }

  /**
   * Every roll command that leaves the servo powered answers a VSTE message received while the servo was enabled and,
   * in flight, no later than 120 s after the latest umbilical disconnection.
   */
  lemma TimeoutSafety(law: CanardLaw, h: seq<Event>, e: Event, cmd: RollServoData)
    requires cmd in Step(law, Run(law, h).m, e).rolls && !cmd.disable
    ensures e.StateMessage? && e.id == "VSTE" && Run(law, h).m.rc.enableServo
    ensures Disconnected(h) ==>
              exists k: nat :: LatestDisconnect(h, k)
                          && PsasTime.Decoded(e.timestamp) <= PsasTime.Decoded(h[k].timestamp) + RollControl.TIMEOUT
  {
    hide Step, PsasTime.Decoded, Run, Disconnected;
    StepEnable(law, Run(law, h).m, e);
    LaunchHistory(law, h);
    if Disconnected(h) {
      var k: nat :| LatestDisconnect(h, k)
               && Run(law, h).m.rc.timeout == PsasTime.Decoded(h[k].timestamp) + RollControl.TIMEOUT;
      assert PsasTime.Decoded(e.timestamp) <= PsasTime.Decoded(h[k].timestamp) + RollControl.TIMEOUT;
    }
  }

  // ---------------------------------------------------------------- disabling

  /** Whenever the servo is not enabled, the last command sent (if any) told the servo board to disable it. */
  lemma {:induction false} DisableLatch(law: CanardLaw, h: seq<Event>)
    ensures var t := Run(law, h); !t.m.rc.enableServo ==> t.rolls == [] || Last(t.rolls).disable
  {
    hide Step;
    if h != [] {
      DisableLatch(law, h[..|h| - 1]);
      StepEnable(law, Run(law, h[..|h| - 1]).m, Last(h));
    }
  }

  lemma RunConcat(law: CanardLaw, h: seq<Event>, later: seq<Event>)
    requires later != []
    ensures h + later[..|later| - 1] == (h + later)[..|h + later| - 1] && Last(h + later) == Last(later)
  {
  }

  /** Signals and commands only accumulate. */
  lemma {:induction false} RunGrows(law: CanardLaw, h: seq<Event>, later: seq<Event>)
    ensures |Run(law, h).signals| <= |Run(law, h + later).signals|
  {
    hide Step;
    if later == [] {
      assert h + later == h;
    } else {
      RunConcat(law, h, later);
      RunGrows(law, h, later[..|later| - 1]);
    }
  }

  /**
   * Once disabled while armed, the servo gets no further command, and stays armed and disabled, through any messages
   * that produce no ARM or SAFE signal; in particular test commands change nothing.
   */
  lemma {:induction false} QuietUntilSignal(law: CanardLaw, h: seq<Event>, later: seq<Event>)
    requires Run(law, h).m.rc.armed && !Run(law, h).m.rc.enableServo
    requires |Run(law, h + later).signals| == |Run(law, h).signals|
    ensures Run(law, h + later).rolls == Run(law, h).rolls
    ensures Run(law, h + later).m.rc.armed && !Run(law, h + later).m.rc.enableServo
  {
    hide Step;
    if later == [] {
      assert h + later == h;
    } else {
      var front := later[..|later| - 1];
      RunConcat(law, h, later);
      RunGrows(law, h, front);
      QuietUntilSignal(law, h, front);
      StepEnable(law, Run(law, h + front).m, Last(later));
    }
  }

  /** The timeout fired at the k-th message. */
  predicate TimedOutAt(law: CanardLaw, h: seq<Event>, k: nat)
  {
    k < |h| && h[k].StateMessage? &&
    var rc := Run(law, h[..k]).m.rc;
    rc.armed && rc.enableServo && rc.launched && PsasTime.Decoded(h[k].timestamp) > rc.timeout
  }

  /** Armed but disabled happens only through the timeout, with no signal since. */
  lemma {:induction false} ArmedDisabledMeansTimeout(law: CanardLaw, h: seq<Event>)
    ensures var t := Run(law, h);
            t.m.rc.armed && !t.m.rc.enableServo ==>
              exists k: nat :: TimedOutAt(law, h, k) && Run(law, h[..k]).signals == t.signals
  {
    hide Step, PsasTime.Decoded;
    if h != [] {
      var n: nat := |h| - 1;
      var front := h[..n];
      ArmedDisabledMeansTimeout(law, front);
      StepEnable(law, Run(law, front).m, h[n]);
      var t, before := Run(law, h), Run(law, front);
      if t.m.rc.armed && !t.m.rc.enableServo {
        if before.m.rc.armed && !before.m.rc.enableServo {
          assert t.signals == before.signals + [] == before.signals;
          var k: nat :| TimedOutAt(law, front, k) && Run(law, front[..k]).signals == before.signals;
          assert h[..k] == front[..k];
          assert TimedOutAt(law, h, k);
        } else {
          assert TimedOutAt(law, h, n);
          assert t.signals == before.signals + [] == before.signals;
        }
      }
    }
  }

  /**
   * A SAFE datagram is obeyed in every reachable state: the servo is told to disable, and armed and enabled both clear.
   */
  lemma SafeAlwaysWorks(law: CanardLaw, h: seq<Event>, buffer: seq<byte>)
    requires Arm.SafeBytes(buffer)
    ensures var before, after := Run(law, h), Run(law, h + [ArmDatagram(buffer)]);
            && after.signals == before.signals + [Arm.SAFE]
            && after.rolls == before.rolls + [RollServoData(0.0, true)]
            && !after.m.rc.armed && !after.m.rc.enableServo
  {
    hide Arm.Command, Arm.SafeBytes;
    Arm.CommandBytes(buffer);
    assert (h + [ArmDatagram(buffer)])[..|h|] == h;
  }

  predicate TestEnables(e: Event) {
    e.TestDatagram? && RollControl.EnableBytes(e.buffer)
  }

  lemma StepStaysSafe(law: CanardLaw, m: Machine, e: Event)
    requires !m.rc.armed && !m.rc.enableServo && !TestEnables(e)
    ensures var t := Step(law, m, e);
            Arm.ARM !in t.signals ==>
              !t.m.rc.armed && !t.m.rc.enableServo && forall cmd :: cmd in t.rolls ==> cmd.disable
  {
    hide Arm.Command, RollControl.OnTestCommand, RollControl.EnableBytes, PsasTime.Decoded;
    if e.TestDatagram? {
      RollControl.TestCommandBytes(m.rc, e.buffer);
    }
  }

  /**
   * After a SAFE datagram, through any messages that make no ARM signal and hold no test ENABLE, the servo stays
   * disarmed and disabled, and every command sent from then on disables it.
   */
  lemma {:induction false} SafeLasts(law: CanardLaw, h: seq<Event>, buffer: seq<byte>, later: seq<Event>)
    requires Arm.SafeBytes(buffer)
    requires Arm.ARM !in RunFrom(law, Run(law, h + [ArmDatagram(buffer)]).m, later).signals
    requires forall e :: e in later ==> !TestEnables(e)
    ensures var before, after := Run(law, h), Run(law, h + [ArmDatagram(buffer)] + later);
            && !after.m.rc.armed && !after.m.rc.enableServo
            && |after.rolls| > |before.rolls| && after.rolls[..|before.rolls|] == before.rolls
            && forall i :: |before.rolls| <= i < |after.rolls| ==> after.rolls[i].disable
    decreases |later|
  {
    hide Step, Run, TestEnables, Arm.SafeBytes;
    var h' := h + [ArmDatagram(buffer)];
    if later == [] {
      SafeAlwaysWorks(law, h, buffer);
      assert h' + later == h';
    } else {
      var front, last := later[..|later| - 1], Last(later);
      RunSplit(law, h', front);
      SafeLasts(law, h, buffer, front);
      StepStaysSafe(law, Run(law, h' + front).m, last);
      assert h' + later == (h' + front) + [last];
      RunSnoc(law, h' + front, last);
    }
  }

  /** If no test datagram has selected ENABLE, the servo is enabled only while armed. */
  lemma {:induction false} EnabledMeansArmed(law: CanardLaw, h: seq<Event>)
    requires forall e :: e in h ==> !TestEnables(e)
    ensures Run(law, h).m.rc.enableServo ==> Run(law, h).m.rc.armed
  {
    hide Step, TestEnables;
    if h != [] {
      EnabledMeansArmed(law, h[..|h| - 1]);
      assert h[|h| - 1] in h;
      StepKeepsArmed(law, Run(law, h[..|h| - 1]).m, h[|h| - 1]);
    }
  }

  lemma StepKeepsArmed(law: CanardLaw, m: Machine, e: Event)
    requires !TestEnables(e) && (m.rc.enableServo ==> m.rc.armed)
    ensures var t := Step(law, m, e); t.m.rc.enableServo ==> t.m.rc.armed
  {
    hide Arm.Command, RollControl.OnTestCommand, RollControl.EnableBytes, PsasTime.Decoded;
    if e.TestDatagram? && !m.rc.armed {
      RollControl.TestCommandBytes(m.rc, e.buffer);
    } else if e.TestDatagram? {
      WhileArmed(m.rc, e.buffer);
    }
  }

  lemma WhileArmed(rc: RollControl.RcState, buffer: seq<byte>)
    requires rc.armed
    ensures RollControl.OnTestCommand(rc, buffer) == RollControl.Handled(rc, [])
  {
  }

  /**
   * Once a state message comes later than 120 s after the latest disconnection, the servo is disabled and the last
   * command sent, if any, says so.
   */
  lemma TimeoutDisables(law: CanardLaw, h: seq<Event>, e: Event)
    requires e.StateMessage? && Disconnected(h)
    requires forall k: nat :: LatestDisconnect(h, k) ==>
               PsasTime.Decoded(e.timestamp) > PsasTime.Decoded(h[k].timestamp) + RollControl.TIMEOUT
    ensures var t := Run(law, h + [e]); !t.m.rc.enableServo && (t.rolls != [] ==> Last(t.rolls).disable)
  {
    hide Run, PsasTime.Decoded, LatestDisconnect;
    LaunchHistory(law, h);
    RunSnoc(law, h, e);
    DisableLatch(law, h + [e]);
  }

  // ---------------------------------------------------------------- control loop

  /** In every reachable state the integrator is within its limits, and every angle sent converts to servo ticks. */
  lemma {:induction false} ControlBounds(law: CanardLaw, h: seq<Event>)
    ensures RollControl.INTEGRATOR_MIN <= Run(law, h).m.rc.integrator <= RollControl.INTEGRATOR_MAX
    ensures forall cmd :: cmd in Run(law, h).rolls ==>
              MIN_CANARD_ANGLE <= cmd.angle <= MAX_CANARD_ANGLE && Convertible(cmd.angle)
  {
    hide Arm.Command, Selects, Convertible;
    if h != [] {
      var m, e := Run(law, h[..|h| - 1]).m, Last(h);
      ControlBounds(law, h[..|h| - 1]);
      forall cmd | cmd in Step(law, m, e).rolls
        ensures MIN_CANARD_ANGLE <= cmd.angle <= MAX_CANARD_ANGLE && Convertible(cmd.angle)
      {
        assert MIN_CANARD_ANGLE <= cmd.angle <= MAX_CANARD_ANGLE;
        ClampedAngleConverts(cmd.angle);
      }
    }
  }

  /** State messages that the controller acts on. */
  predicate Controlled(rc: RollControl.RcState, states: seq<Event>) {
    rc.enableServo && forall i :: 0 <= i < |states| ==>
      && states[i].StateMessage? && states[i].id == "VSTE"
      && (rc.launched ==> PsasTime.Decoded(states[i].timestamp) <= rc.timeout)
  }

  function Errors(states: seq<Event>): (errors: seq<real>)
    requires forall i :: 0 <= i < |states| ==> states[i].StateMessage?
    ensures |errors| == |states|
    ensures forall i :: 0 <= i < |states| ==> errors[i] == RollControl.Error(states[i].data.rollRate)
  {
    seq(|states|, i requires 0 <= i < |states| => RollControl.Error(states[i].data.rollRate))
  }

  lemma {:induction false} IntegrateSnoc(integrator: real, errors: seq<real>, error: real)
    ensures RollControl.IntegrateErrors(integrator, errors + [error]) ==
            RollControl.NextIntegrator(RollControl.IntegrateErrors(integrator, errors), error)
    decreases |errors|
  {
    hide RollControl.NextIntegrator;
    var all := errors + [error];
    if errors == [] {
      assert all[1..] == [];
    } else {
      assert all[1..] == errors[1..] + [error];
      IntegrateSnoc(RollControl.NextIntegrator(integrator, errors[0]), errors[1..], error);
    }
  }

  lemma StepIntegrates(law: CanardLaw, m: Machine, e: Event)
    requires e.StateMessage? && Controlled(m.rc, [e])
    ensures var rc := Step(law, m, e).m.rc;
            && rc.integrator == RollControl.NextIntegrator(m.rc.integrator, RollControl.Error(e.data.rollRate))
            && rc.enableServo && rc.launched == m.rc.launched && rc.timeout == m.rc.timeout
  {
    hide RollControl.NextIntegrator, PsasTime.Decoded;
    assert [e][0] == e;
  }

  lemma {:induction false} StatesIntegrate(law: CanardLaw, h: seq<Event>, states: seq<Event>)
    requires Controlled(Run(law, h).m.rc, states)
    ensures var rc, rc' := Run(law, h).m.rc, Run(law, h + states).m.rc;
            && rc'.integrator == RollControl.IntegrateErrors(rc.integrator, Errors(states))
            && rc'.enableServo && rc'.launched == rc.launched && rc'.timeout == rc.timeout
  {
    hide Step, RollControl.NextIntegrator, PsasTime.Decoded;
    if states == [] {
      assert h + states == h;
    } else {
      var n := |states| - 1;
      RunConcat(law, h, states);
      StatesIntegrate(law, h, states[..n]);
      StepIntegrates(law, Run(law, h + states[..n]).m, states[n]);
      IntegrateSnoc(Run(law, h).m.rc.integrator, Errors(states[..n]), Errors(states)[n]);
      assert Errors(states) == Errors(states[..n]) + [Errors(states)[n]];
    }
  }

  /**
   * From any reachable state, n controlled messages with error at least e >= 0 lift the integrator to min(10000, n*e -
   * 10000).
   */
  lemma RunAntiWindup(law: CanardLaw, h: seq<Event>, states: seq<Event>, e: real)
    requires e >= 0.0 && Controlled(Run(law, h).m.rc, states)
    requires forall i :: 0 <= i < |states| ==> RollControl.Error(states[i].data.rollRate) >= e
    ensures var r := Run(law, h + states).m.rc.integrator;
            r == RollControl.INTEGRATOR_MAX || r >= RollControl.INTEGRATOR_MIN + |states| as real * e
  {
    hide Run, RollControl.IntegrateErrors;
    ControlBounds(law, h);
    StatesIntegrate(law, h, states);
    RollControl.AntiWindup(Run(law, h).m.rc.integrator, Errors(states), e);
  }

  /** And n with error at most -e bring it down to max(-10000, 10000 - n*e). */
  lemma RunAntiWindupBelow(law: CanardLaw, h: seq<Event>, states: seq<Event>, e: real)
    requires e >= 0.0 && Controlled(Run(law, h).m.rc, states)
    requires forall i :: 0 <= i < |states| ==> RollControl.Error(states[i].data.rollRate) <= -e
    ensures var r := Run(law, h + states).m.rc.integrator;
            r == RollControl.INTEGRATOR_MIN || r <= RollControl.INTEGRATOR_MAX - |states| as real * e
  {
    hide Run, RollControl.IntegrateErrors;
    ControlBounds(law, h);
    StatesIntegrate(law, h, states);
    RollControl.AntiWindupBelow(Run(law, h).m.rc.integrator, Errors(states), e);
  }
}
