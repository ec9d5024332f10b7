/**
 * The arming manager, the roll controller and the servo interface as connected by main.miml: an arming signal reaches
 * the roll controller, and a servo command the servo board, before the next message is handled. Refines FlightSafety,
 * whose theorems therefore hold of these objects and of the bytes sent to the servo.
 */
module FlightControl {
  import opened Bytes
  import opened FinLaw
  import opened FlightSafety
  import Arm
  import RollControl
  import RollServo

  class FlightControl {
    const lib: MathLib
    const arm: Arm.ArmManager
    const rc: RollControl.RollControl
    const servo: RollServo.RollServo
    /** The messages handled so far. */
    ghost var history: seq<Event>

    /** What every run keeps: state, signals and servo commands are those the history calls for, and all are sent on. */
    ghost predicate Valid()
      reads this, arm, rc, servo
    {
      && Lawful(lib) && Run(LawOf(lib), history) == Trace(Machine(arm.State(), rc.State()), arm.signals, rc.sent)
      && servo.Valid() && servo.adjusted == rc.sent
    }

    constructor (lib: MathLib)
      requires Lawful(lib)
      ensures Valid() && history == [] && this.lib == lib && fresh(arm) && fresh(rc) && fresh(servo)
    {
      this.lib := lib;
      arm := new Arm.ArmManager();
      rc := new RollControl.RollControl();
      servo := new RollServo.RollServo();
      history := [];
    }

    method OnEvent(e: Event)
      requires Valid()
      modifies this, arm, rc, servo
      ensures Valid() && history == old(history) + [e]
    {
      hide Run, Arm.OnImu, Arm.OnGps, Arm.OnCommand;
      hide RollControl.OnState, RollControl.OnSignal, RollControl.OnTestCommand, RollControl.OnUmbilical;
      hide RollServo.Convertible;
      RunSnoc(LawOf(lib), history, e);
      CommandsOfStep(LawOf(lib), history, e);
      var n := |rc.sent|;
      match e {
        case Imu(sample) =>
          arm.ArmReceiveImu(sample);
        case Gps(id, fixMode) =>
          arm.ArmReceiveGps(id, fixMode);
        case ArmDatagram(buffer) =>
          var k := |arm.signals|;
          arm.ArmRawIn(buffer);
          if k < |arm.signals| {
            rc.RcReceiveArm(arm.signals[k]);
          }
        case TestDatagram(buffer) =>
          rc.RcRawTestrc(buffer);
        case Umbilical(id, detect, timestamp) =>
          rc.RcRawUmb(id, timestamp, detect);
        case StateMessage(id, timestamp, data) =>
          rc.RcReceiveState(lib, id, timestamp, data);
      }
      history := history + [e];
      SendServo(n);
    }

    lemma RunIs()
      requires Valid()
      ensures Lawful(lib) && Run(LawOf(lib), history) == Trace(Machine(arm.State(), rc.State()), arm.signals, rc.sent)
    {
    }

    /** Sends the command, if any, that the last message added. */
    method SendServo(n: nat)
      requires Lawful(lib) && servo.Valid() && n <= |rc.sent| && servo.adjusted == rc.sent[..n]
      requires |rc.sent| <= n + 1 && forall cmd :: cmd in rc.sent ==> RollServo.Convertible(cmd.angle)
      modifies servo
      ensures servo.Valid() && servo.adjusted == rc.sent
    {
      if n < |rc.sent| {
        servo.RsReceiveAdj(rc.sent[n]);
      }
    }

    /**
     * After any messages, the k-th datagram written to the servo board decodes to number k mod 2^32 and the ticks and
     * disable flag of the k-th command of the run; while the servo is not enabled, the last one written disables it.
     */
    lemma ServoDatagrams()
      requires Valid()
      ensures var rolls := Run(LawOf(lib), history).rolls;
              && |servo.written| == |rolls|
              && forall k :: 0 <= k < |rolls| ==>
                   && RollServo.Convertible(rolls[k].angle) && |servo.written[k]| == 7
                   && RollServo.DecodeCommand(servo.written[k]) ==
                      RollServo.Command(k % TWO_32, RollServo.Ticks(rolls[k].angle), rolls[k].disable)
      ensures !rc.enableServo && servo.written != [] ==>
                |Last(servo.written)| == 7 && RollServo.DecodeCommand(Last(servo.written)).disable
    {
      hide Run, RollServo.DecodeCommand, RollServo.Convertible, RollServo.NthCommand, RollServo.Ticks;
      DisableLatch(LawOf(lib), history);
      forall k | 0 <= k < |servo.written|
        ensures RollServo.Convertible(servo.adjusted[k].angle)
        ensures RollServo.NthCommand(k, servo.adjusted[k]) ==
                RollServo.Command(k % TWO_32, RollServo.Ticks(servo.adjusted[k].angle), servo.adjusted[k].disable)
      {
        RollServo.NthIs(k, servo.adjusted[k]);
      }
    }
  }

  lemma CommandsOfStep(law: CanardLaw, h: seq<Event>, e: Event)
    ensures |Run(law, h + [e]).rolls| <= |Run(law, h).rolls| + 1
    ensures forall cmd :: cmd in Run(law, h + [e]).rolls ==> RollServo.Convertible(cmd.angle)
  {
    hide Run, Step, RollServo.Convertible;
    RunSnoc(law, h, e);
    StepEnable(law, Run(law, h).m, e);
    ControlBounds(law, h + [e]);
  }
}
