/**
 * One object that runs everything: the demultiplexer, the GPS framer, the state estimator, arming and roll control with
 * the servo, and the logger, called in the order of main.miml. It refines FlightComputer and FlightLog, whose theorems
 * therefore hold of the bytes it sends to the servo, the log file and the ground.
 */
module FlightSystem {
  import opened Bytes
  import opened SequenceTracking
  import opened VenusFrames
  import opened FinLaw
  import opened FlightSafety
  import opened Routing
  import opened LogFormat
  import opened FlightComputer
  import opened FlightLog
  import Arm
  import Commands
  import Ethmux
  import FlightControl
  import LogBatching
  import Logger
  import PsasTime
  import RollServo
  import StateEstimator
  import VenusFramer

  // ---------------------------------------------------------------- what the log calls amount to

  /** The calls made for datagrams, and the data of those made for arming signals and servo commands. */
  datatype LogView = LogView(records: seq<LogBatching.Entry>, signals: seq<seq<byte>>, rolls: seq<seq<byte>>)

  function View(calls: seq<LogBatching.Event>): LogView {
    var es := LogBatching.Logged(calls);
    var ms := LogBatching.Messages(es);
    LogView(CallsForDatagrams(es), Datas(WithId(ms, IdBytes("MESG"))), Datas(WithId(ms, IdBytes("ROLL"))))
  }

  lemma LoggedOneMore(calls: seq<LogBatching.Event>, e: LogBatching.Entry, now: seq<byte>)
    ensures LogBatching.Logged(calls + [LogBatching.Put(e, now)]) == LogBatching.Logged(calls) + [e]
    ensures LogBatching.Logged(calls + [LogBatching.Tick(now)]) == LogBatching.Logged(calls)
  {
    assert (calls + [LogBatching.Put(e, now)])[..|calls|] == calls;
    assert (calls + [LogBatching.Tick(now)])[..|calls|] == calls;
  }

  /** What a further call for a datagram or of one of the other kinds adds. */
  function Added(v: LogView, e: LogBatching.Entry): LogView {
    LogView(if FromDatagram(e.msg) then v.records + [e] else v.records,
            if e.msg.id == IdBytes("MESG") then v.signals + [e.msg.data] else v.signals,
            if e.msg.id == IdBytes("ROLL") then v.rolls + [e.msg.data] else v.rolls)
  }

  lemma DatasSnoc(ms: seq<Message>, m: Message)
    ensures Datas(ms + [m]) == Datas(ms) + [m.data]
  {
  }

  lemma ViewOneMore(calls: seq<LogBatching.Event>, e: LogBatching.Entry, now: seq<byte>)
    ensures View(calls + [LogBatching.Put(e, now)]) == Added(View(calls), e)
    ensures View(calls + [LogBatching.Tick(now)]) == View(calls)
  {
    hide FromDatagram, WithId, CallsForDatagrams, LogBatching.Messages, LogBatching.Logged, Datas, IdBytes;
    var es := LogBatching.Logged(calls);
    var ms := LogBatching.Messages(es);
    LoggedOneMore(calls, e, now);
    LogBatching.Snoc(es, e);
    CallsSnoc(es, e);
    WithIdSnoc(ms, e.msg, IdBytes("MESG"));
    WithIdSnoc(ms, e.msg, IdBytes("ROLL"));
    DatasSnoc(WithId(ms, IdBytes("MESG")), e.msg);
    DatasSnoc(WithId(ms, IdBytes("ROLL")), e.msg);
  }

  /** Calls that do not come from datagrams. */
  datatype OwnCall = SignalCall | RollCall | VersionCall

  function OwnId(call: OwnCall): (id: seq<byte>)
    ensures |id| == 4
  {
    match call
    case SignalCall => IdBytes("MESG")
    case RollCall => IdBytes("ROLL")
    case VersionCall => IdBytes("VERS")
  }

  function OwnAdded(v: LogView, call: OwnCall, data: seq<byte>): LogView {
    match call
    case SignalCall => v.(signals := v.signals + [data])
    case RollCall => v.(rolls := v.rolls + [data])
    case VersionCall => v
  }

  lemma OwnIsAdded(v: LogView, call: OwnCall, m: Message)
    requires m.id == OwnId(call)
    ensures Added(v, LogBatching.Entry(m, true)) == OwnAdded(v, call, m.data)
  {
    IdBytesInjective("VERS", "MESG");
    IdBytesInjective("VERS", "ROLL");
    IdBytesInjective("MESG", "ROLL");
  }

  lemma DatagramIsNotOwn(m: Message, v: LogView, toNet: bool)
    requires FromDatagram(m)
    ensures var e := LogBatching.Entry(m, toNet); Added(v, e) == v.(records := v.records + [e])
  {
  }

  /** "ARM" and "SAFE" as logged. */
  function SignalData(s: Arm.Signal): (data: seq<byte>)
    ensures |data| <= 4
    ensures s == Arm.ARM <==> data == [65, 82, 77]
    ensures s == Arm.SAFE <==> data == [83, 65, 70, 69]
  {
    match s
    case ARM => IdBytes("ARM")
    case SAFE => IdBytes("SAFE")
  }

  function SignalDatas(signals: seq<Arm.Signal>): (datas: seq<seq<byte>>)
    ensures |datas| == |signals| && forall i :: 0 <= i < |signals| ==> datas[i] == SignalData(signals[i])
  {
    seq(|signals|, i requires 0 <= i < |signals| => SignalData(signals[i]))
  }

  /** The bytes of a double in network order are a parameter. */
  function RollData(angleBytes: real -> seq<byte>, cmd: RollServo.RollServoData): (data: seq<byte>)
    ensures |data| == |angleBytes(cmd.angle)| + 1 && data[..|data| - 1] == angleBytes(cmd.angle)
    ensures data[|data| - 1] != 0 <==> cmd.disable
  {
    angleBytes(cmd.angle) + [if cmd.disable then 1 else 0]
  }

  function RollDatas(angleBytes: real -> seq<byte>, rolls: seq<RollServo.RollServoData>): (datas: seq<seq<byte>>)
    ensures |datas| == |rolls| && forall i :: 0 <= i < |rolls| ==> datas[i] == RollData(angleBytes, rolls[i])
  {
    seq(|rolls|, i requires 0 <= i < |rolls| => RollData(angleBytes, rolls[i]))
  }

  lemma NothingSentYet(law: CanardLaw)
    ensures Run(law, []) == Trace(INITIAL, [], [])
  {
  }

  lemma NothingReceivedYet()
    ensures Defined([]) && FlightRun([]) == Reaction(START, [], []) && RunRecords([]) == []
  {
  }

  lemma NothingLoggedYet()
    ensures View([]) == LogView([], [], [])
  {
  }

  lemma LoggableCall(c: LogCall)
    requires Loggable(c)
    ensures Commands.IsAscii(c.id) && |c.id| == 4 && |c.timestamp| == 6
    ensures HEADER_SIZE + |c.data| <= if c.toNet then LogBatching.NET_LIMIT else LogBatching.DISK_LIMIT
    ensures Record(c) == LogBatching.Entry(RawMessage(IdBytes(c.id), c.timestamp, c.data), c.toNet)
    ensures FromDatagram(Record(c).msg)
  {
  }

  // ---------------------------------------------------------------- the objects

  class FlightSystem {
    const ethmux: Ethmux.Ethmux
    const framer: VenusFramer.VenusFramer
    const estimator: StateEstimator.StateEstimator
    const control: FlightControl.FlightControl
    const logger: Logger.Logger
    /** The clock's readings in turn, and how many have been made. */
    const clock: nat -> seq<byte>
    var reading: nat
    const angleBytes: real -> seq<byte>

    ghost function Repr(): set<object> {
      {this, ethmux, framer, framer.buf, estimator, control, control.arm, control.rc, control.servo,
       logger, logger.diskLogBuffer, logger.logBuffer}
    }

    /** Each object keeps its own promises. */
    ghost predicate PartsValid()
      reads Repr()
    {
      && ethmux.Valid() && framer.Valid() && estimator.Valid() && control.Valid() && logger.Valid()
      && framer.buf != logger.diskLogBuffer && framer.buf != logger.logBuffer
      && (forall k :: |clock(k)| == 6) && (forall x :: |angleBytes(x)| == 8)
    }

    ghost function State(): Flight
      reads framer, framer.buf, estimator
    {
      Flight(if framer.InBounds() then framer.Residue() else [], StateEstimator.Run(estimator.readings))
    }

    /** Every signal and servo command has been logged. */
    ghost predicate ControlLogged()
      reads control, control.arm, control.rc, logger
    {
      && View(logger.calls).signals == SignalDatas(control.arm.signals)
      && View(logger.calls).rolls == RollDatas(angleBytes, control.rc.sent)
    }

    /** What every run keeps: everything is as the datagrams received call for. */
    ghost predicate Valid()
      reads Repr()
    {
      && PartsValid() && ControlLogged() && Defined(ethmux.received)
      && var run := FlightRun(ethmux.received);
      && State() == run.f && control.history == run.events
      && View(logger.calls).records == RunRecords(ethmux.received)
    }

    constructor (lib: MathLib, clock: nat -> seq<byte>, angleBytes: real -> seq<byte>)
      requires Lawful(lib) && (forall k :: |clock(k)| == 6) && (forall x :: |angleBytes(x)| == 8)
      ensures Valid() && ethmux.received == [] && control.lib == lib
    {
      hide View, Ethmux.Ethmux.Valid, VenusFramer.VenusFramer.Valid, StateEstimator.StateEstimator.Valid;
      hide FlightControl.FlightControl.Valid, Logger.Logger.Valid, Valid, ControlLogged, State;
      this.clock := clock;
      this.angleBytes := angleBytes;
      reading := 0;
      ethmux := new Ethmux.Ethmux();
      framer := new VenusFramer.VenusFramer();
      estimator := new StateEstimator.StateEstimator();
      control := new FlightControl.FlightControl(lib);
      logger := new Logger.Logger();
      new;
      StartsValid();
    }

    lemma StartsValid()
      requires PartsValid() && ethmux.received == [] && framer.Residue() == [] && estimator.readings == []
      requires control.history == [] && logger.calls == []
      ensures Valid()
    {
      hide View, Ethmux.Ethmux.Valid, VenusFramer.VenusFramer.Valid, StateEstimator.StateEstimator.Valid;
      hide FlightControl.FlightControl.Valid, Logger.Logger.Valid, FlightRun, RunRecords, Defined, Run;
      control.RunIs();
      NothingLoggedYet();
      NothingReceivedYet();
      NothingSentYet(LawOf(control.lib));
    }

    method Now() returns (t: seq<byte>)
      requires forall k :: |clock(k)| == 6
      modifies this`reading
      ensures |t| == 6
    {
      t := clock(reading);
      reading := reading + 1;
    }

    /** A message from a datagram goes to the log. */
    method Log(c: LogCall)
      requires PartsValid() && Loggable(c)
      modifies this`reading, logger, logger.diskLogBuffer, logger.logBuffer
      ensures PartsValid() && State() == old(State()) && (old(ControlLogged()) ==> ControlLogged())
      ensures View(logger.calls) == old(View(logger.calls)).(records := old(View(logger.calls)).records + [Record(c)])
    {
      hide View, Added, Ethmux.Ethmux.Valid, VenusFramer.VenusFramer.Valid, StateEstimator.StateEstimator.Valid;
      hide FlightControl.FlightControl.Valid, Logger.Logger.Valid, Loggable, FromDatagram;
      LoggableCall(c);
      var now := Now();
      var id := IdBytes(c.id);
      ghost var e := Record(c);
      ViewOneMore(logger.calls, e, now);
      DatagramIsNotOwn(e.msg, View(logger.calls), c.toNet);
      if c.toNet {
        logger.LogWrite(id, c.timestamp, c.data, now);
      } else {
        logger.LogWriteDiskOnly(id, c.timestamp, c.data, now);
      }
    }

    /** A message of another kind goes to the log. */
    method LogOwn(call: OwnCall, timestamp: seq<byte>, data: seq<byte>)
      requires PartsValid() && |timestamp| == 6 && HEADER_SIZE + |data| <= LogBatching.NET_LIMIT
      modifies this`reading, logger, logger.diskLogBuffer, logger.logBuffer
      ensures PartsValid() && View(logger.calls) == OwnAdded(old(View(logger.calls)), call, data)
    {
      hide View, Ethmux.Ethmux.Valid, VenusFramer.VenusFramer.Valid, StateEstimator.StateEstimator.Valid;
      hide FlightControl.FlightControl.Valid, Logger.Logger.Valid, FromDatagram, Added, OwnAdded, OwnId;
      var now := Now();
      ghost var m: Message := RawMessage(OwnId(call), timestamp, data);
      ViewOneMore(logger.calls, LogBatching.Entry(m, true), now);
      OwnIsAdded(View(logger.calls), call, m);
      logger.LogWrite(OwnId(call), timestamp, data, now);
    }

    /** A message for arming or roll control; what these send is logged after the servo and roll control have it. */
    method Handle(e: Event)
      requires PartsValid() && ControlLogged()
      modifies this`reading, control, control.arm, control.rc, control.servo
      modifies logger, logger.diskLogBuffer, logger.logBuffer
      ensures PartsValid() && ControlLogged() && State() == old(State())
      ensures control.history == old(control.history) + [e]
      ensures View(logger.calls).records == old(View(logger.calls)).records
    {
      hide View, Ethmux.Ethmux.Valid, VenusFramer.VenusFramer.Valid, StateEstimator.StateEstimator.Valid;
      hide FlightControl.FlightControl.Valid, Logger.Logger.Valid, Run, Step, SignalData, RollData;
      var n, k := |control.rc.sent|, |control.arm.signals|;
      control.RunIs();
      RunSnoc(LawOf(control.lib), control.history, e);
      AtMostOne(LawOf(control.lib), Run(LawOf(control.lib), control.history).m, e);
      control.OnEvent(e);
      control.RunIs();
      LogControl(n, k);
    }

    /** The servo command and the signal, if any, that the last message added. */
    method LogControl(n: nat, k: nat)
      requires PartsValid()
      requires n <= |control.rc.sent| <= n + 1 && k <= |control.arm.signals| <= k + 1
      requires View(logger.calls).signals == SignalDatas(control.arm.signals[..k])
      requires View(logger.calls).rolls == RollDatas(angleBytes, control.rc.sent[..n])
      modifies this`reading, logger, logger.diskLogBuffer, logger.logBuffer
      ensures PartsValid() && ControlLogged()
      ensures View(logger.calls).records == old(View(logger.calls)).records
    {
      hide View, Ethmux.Ethmux.Valid, VenusFramer.VenusFramer.Valid, StateEstimator.StateEstimator.Valid;
      hide FlightControl.FlightControl.Valid, Logger.Logger.Valid, SignalData, RollData;
      if n < |control.rc.sent| {
        var now := Now();
        LogOwn(RollCall, now, RollData(angleBytes, control.rc.sent[n]));
      }
      if k < |control.arm.signals| {
        var now := Now();
        LogOwn(SignalCall, now, SignalData(control.arm.signals[k]));
      }
    }

    /** A GPS message goes to arming and then, through the filter, to the log. */
    method SendMessage(timestamp: seq<byte>, m: Packet)
      requires PartsValid() && ControlLogged() && Loggable(GpsLog(timestamp, m))
      modifies this`reading, control, control.arm, control.rc, control.servo
      modifies logger, logger.diskLogBuffer, logger.logBuffer
      ensures PartsValid() && ControlLogged() && State() == old(State())
      ensures control.history == old(control.history) + [Gps(VenusId(m.id), FixByte(m))]
      ensures View(logger.calls).records == old(View(logger.calls)).records + [Record(GpsLog(timestamp, m))]
    {
      hide View, Ethmux.Ethmux.Valid, VenusFramer.VenusFramer.Valid, StateEstimator.StateEstimator.Valid;
      hide FlightControl.FlightControl.Valid, Logger.Logger.Valid, Loggable, Record, VenusId, FixByte, ToGround;
      var id := VenusId(m.id);
      VenusIds(m.id);
      Handle(Gps(id, FixByte(m)));
      Log(LogCall(id, timestamp, m.dataLength, m.payload, ToGround(id)));
    }

    /** The GPS messages a datagram completes, each to arming first and then to the log. */
    method SendGps(timestamp: seq<byte>, payload: seq<byte>, ghost fed: Parsed)
      requires PartsValid() && ControlLogged() && |payload| <= BUFFER_SIZE
      requires fed == Feed(State().rest, payload) && AllLoggable(GpsLogs(timestamp, fed.out))
      modifies this`reading, framer, framer.buf, control, control.arm, control.rc, control.servo
      modifies logger, logger.diskLogBuffer, logger.logBuffer
      ensures PartsValid() && ControlLogged() && State() == old(State()).(rest := fed.rest)
      ensures control.history == old(control.history) + GpsEvents(fed.out)
      ensures View(logger.calls).records == old(View(logger.calls)).records + Records(GpsLogs(timestamp, fed.out))
    {
      hide View, Feed, PartsValid, ControlLogged, Loggable, Record, VenusId, FixByte, GpsLogs, GpsEvents;
      hide State, VenusFramer.Stamped, GpsLog, Records, StateEstimator.Run;
      ghost var logs, events := GpsLogs(timestamp, fed.out), GpsEvents(fed.out);
      var start := |framer.outbox|;
      FrameGps(timestamp, payload);
      var i := start;
      while i < |framer.outbox|
        invariant start <= i <= |framer.outbox| && PartsValid() && ControlLogged()
        invariant State() == old(State()).(rest := fed.rest)
        invariant framer.outbox == old(framer.outbox) + VenusFramer.Stamped(timestamp, fed.out)
        invariant control.history == old(control.history) + events[..i - start]
        invariant View(logger.calls).records == old(View(logger.calls)).records + Records(logs)[..i - start]
      {
        assert logs[i - start] in logs;
        SendMessage(timestamp, framer.outbox[i].packet);
        i := i + 1;
      }
      assert events[..i - start] == events && Records(logs)[..i - start] == Records(logs);
    }

    /** A datagram from the GPS goes through the framer. */
    method FrameGps(timestamp: seq<byte>, payload: seq<byte>)
      requires PartsValid() && ControlLogged() && |payload| <= BUFFER_SIZE
      modifies framer, framer.buf
      ensures PartsValid() && ControlLogged()
      ensures var fed := Feed(old(State()).rest, payload);
              && State() == old(State()).(rest := fed.rest)
              && framer.outbox == old(framer.outbox) + VenusFramer.Stamped(timestamp, fed.out)
    {
      hide View, Ethmux.Ethmux.Valid, StateEstimator.StateEstimator.Valid, StateEstimator.Run, Feed;
      hide FlightControl.FlightControl.Valid, Logger.Logger.Valid;
      framer.CotsRawIn(timestamp, payload);
    }

    /** The state message is made from the IMU packet just seen and goes to roll control. */
    method SendState(timestamp: seq<byte>, payload: seq<byte>)
      requires PartsValid() && ControlLogged() && |payload| == DataLength(Adis)
      modifies this`reading, estimator, control, control.arm, control.rc, control.servo
      modifies logger, logger.diskLogBuffer, logger.logBuffer
      ensures PartsValid() && ControlLogged()
      ensures var est := StateEstimator.OnImu(old(State()).est, StateReading(timestamp, payload));
              && State() == old(State()).(est := est)
              && control.history == old(control.history) + [StateMessage("VSTE", timestamp, est.state)]
      ensures View(logger.calls).records == old(View(logger.calls)).records
    {
      hide View, Ethmux.Ethmux.Valid, VenusFramer.VenusFramer.Valid, FlightControl.FlightControl.Valid;
      hide Logger.Logger.Valid, StateEstimator.OnImu, StateEstimator.Run;
      StateEstimator.RunSnoc(estimator.readings, StateReading(timestamp, payload));
      var now := PsasTime.Decoded(timestamp);
      estimator.StateReceiveImu(now, Int16(payload[8], payload[9]), Int16(payload[2], payload[3]));
      Handle(StateMessage("VSTE", timestamp, estimator.currentState));
    }

    /** A packet handed on, to its receivers in turn. */
    method OnDelivery(o: Output, ghost r: Reaction)
      requires PartsValid() && ControlLogged() && Deliverable(o) && o.Deliver?
      requires r == React(State(), o) && AllLoggable(r.logs)
      modifies Repr() - {ethmux}
      ensures PartsValid() && ControlLogged() && State() == r.f
      ensures control.history == old(control.history) + r.events
      ensures View(logger.calls).records == old(View(logger.calls)).records + Records(r.logs)
    {
      hide View, PartsValid, ControlLogged, Feed, Loggable, Record, StateReading, ArmSample, SourceId, ToGround;
      hide StateEstimator.OnImu, React, GpsEvents, GpsLogs;
      var Deliver(src, timestamp, payload) := o;
      DeliveryOf(State(), src, timestamp, payload);
      if src == Adis {
        Log(Plain(SourceId(src), timestamp, payload));
        Handle(Imu(ArmSample(payload)));
        SendState(timestamp, payload);
      } else if src == RnhUmbdet {
        Handle(Umbilical("RNHU", payload[0], timestamp));
        Log(Plain(SourceId(src), timestamp, payload));
      } else if src == Jgps {
        Log(LogCall("JGPS", timestamp, |payload|, payload, ToGround("JGPS")));
      } else if src == GpsCots {
        SendGps(timestamp, payload, Feed(State().rest, payload));
      } else {
        Log(Plain(SourceId(src), timestamp, payload));
      }
    }

    /** One output of the demultiplexer, to its receivers in turn. */
    method OnOutput(o: Output, ghost r: Reaction)
      requires PartsValid() && ControlLogged() && Deliverable(o)
      requires r == React(State(), o) && AllLoggable(r.logs)
      modifies Repr() - {ethmux}
      ensures PartsValid() && ControlLogged() && State() == r.f
      ensures control.history == old(control.history) + r.events
      ensures View(logger.calls).records == old(View(logger.calls)).records + Records(r.logs)
    {
      hide View, PartsValid, ControlLogged, Feed, Loggable, Record, StateReading, ArmSample, SequenceErrorData;
      hide StateEstimator.OnImu;
      match o {
        case Seqe(src, timestamp, expected, received) =>
          Log(Plain("SEQE", timestamp, SequenceErrorData(src, expected, received)));
        case Raw(src, _, bytes) =>
          Handle(if src == Source.Arm then ArmDatagram(bytes) else TestDatagram(bytes));
        case Deliver(_, _, _) =>
          OnDelivery(o, r);
      }
    }

    lemma Expected()
      requires PartsValid()
      ensures ethmux.outbox == Outputs(ethmux.received) && ethmux.nextSequence == Nexts(ethmux.received)
    {
      hide View, VenusFramer.VenusFramer.Valid, StateEstimator.StateEstimator.Valid;
      hide FlightControl.FlightControl.Valid, Logger.Logger.Valid, DemuxAll;
    }

    /** A datagram is demultiplexed. */
    method Demultiplex(d: Datagram)
      requires PartsValid() && ControlLogged()
      modifies ethmux
      ensures PartsValid() && ControlLogged() && State() == old(State())
      ensures ethmux.received == old(ethmux.received) + [d]
      ensures ethmux.outbox == old(ethmux.outbox) + NewOutputs(old(ethmux.received), d)
    {
      hide View, Ethmux.Ethmux.Valid, VenusFramer.VenusFramer.Valid, StateEstimator.StateEstimator.Valid;
      hide FlightControl.FlightControl.Valid, Logger.Logger.Valid, Demux, DemuxAll;
      Expected();
      ethmux.OnDatagram(d);
    }

    /** The outputs from `start` on, one after the other. */
    method OnOutputs(start: nat, ghost r: Reaction)
      requires PartsValid() && ControlLogged() && start <= |ethmux.outbox| && AllDeliverable(ethmux.outbox[start..])
      requires r == ReactAll(State(), ethmux.outbox[start..]) && AllLoggable(r.logs)
      modifies Repr() - {ethmux}
      ensures PartsValid() && ControlLogged() && State() == r.f
      ensures control.history == old(control.history) + r.events
      ensures View(logger.calls).records == old(View(logger.calls)).records + Records(r.logs)
    {
      hide View, PartsValid, ControlLogged, State, Records, React, ReactAll, AllLoggable, AllDeliverable;
      ghost var f, outs := State(), ethmux.outbox[start..];
      var i := start;
      NothingDone(f);
      while i < |ethmux.outbox|
        invariant start <= i <= |ethmux.outbox| && PartsValid() && ControlLogged()
        invariant AllDeliverable(outs[..i - start]) && AllLoggable(ReactAll(f, outs[..i - start]).logs)
        invariant State() == ReactAll(f, outs[..i - start]).f
        invariant control.history == old(control.history) + ReactAll(f, outs[..i - start]).events
        invariant View(logger.calls).records ==
                  old(View(logger.calls)).records + Records(ReactAll(f, outs[..i - start]).logs)
      {
        OneMoreDone(f, outs, i - start);
        OnOutput(ethmux.outbox[i], React(State(), ethmux.outbox[i]));
        i := i + 1;
      }
      assert outs[..i - start] == outs;
    }

    /** A datagram that keeps the C code within its buffers. */
    method OnDatagram(d: Datagram)
      requires Valid() && Defined(ethmux.received + [d])
      modifies Repr()
      ensures Valid() && ethmux.received == old(ethmux.received) + [d]
    {
      hide View, PartsValid, ControlLogged, State, FlightRun, NewOutputs, Defined, RunRecords, Records;
      hide ReactAll, AllLoggable, AllDeliverable;
      ghost var ds := ethmux.received;
      DefinedWithin(ds);
      OneMoreRecorded(ds, d);
      var start := |ethmux.outbox|;
      Demultiplex(d);
      assert ethmux.outbox[start..] == NewOutputs(ds, d);
      OnOutputs(start, ReactAll(FlightRun(ds).f, NewOutputs(ds, d)));
    }

    method OnTimer()
      requires Valid()
      modifies this`reading, logger
      ensures Valid() && ethmux.received == old(ethmux.received) && control.history == old(control.history)
    {
      hide View, Ethmux.Ethmux.Valid, VenusFramer.VenusFramer.Valid, StateEstimator.StateEstimator.Valid;
      hide FlightControl.FlightControl.Valid, Logger.Logger.Valid, FlightRun, RunRecords, Defined;
      var now := Now();
      ghost var e := LogBatching.Entry(RawMessage([0, 0, 0, 0], now, []), false);
      ViewOneMore(logger.calls, e, now);
      logger.LogTimeout(now);
    }

    /** The hub's version. */
    method OnVersion(version: seq<byte>)
      requires Valid() && |version| <= 50
      modifies this`reading, logger, logger.diskLogBuffer, logger.logBuffer
      ensures Valid() && ethmux.received == old(ethmux.received) && control.history == old(control.history)
    {
      hide View, Ethmux.Ethmux.Valid, VenusFramer.VenusFramer.Valid, StateEstimator.StateEstimator.Valid;
      hide FlightControl.FlightControl.Valid, Logger.Logger.Valid, FlightRun, RunRecords, Defined;
      var now := Now();
      LogOwn(VersionCall, now, version);
    }

    /**
     * After any calls, the k-th datagram written to the servo board decodes to number k mod 2^32 and the ticks and flag
     * of the k-th command of the run of datagrams received; and if it leaves the servo powered, it was sent for a
     * delivered IMU datagram, in flight for one stamped at most 120 s after the datagram that last disconnected the
     * umbilical.
     */
    lemma ServoBytes(k: nat)
      requires Valid() && k < |control.servo.written|
      ensures var rolls := Run(LawOf(control.lib), FlightRun(ethmux.received).events).rolls;
              var bytes := control.servo.written[k];
              && |control.servo.written| == |rolls| && RollServo.Convertible(rolls[k].angle) && |bytes| == 7
              && RollServo.DecodeCommand(bytes) ==
                 RollServo.Command(k % TWO_32, RollServo.Ticks(rolls[k].angle), rolls[k].disable)
              && (!RollServo.DecodeCommand(bytes).disable ==>
                    exists i: nat :: MadeFor(LawOf(control.lib), ethmux.received, k, i) && MayPower(ethmux.received, i))
    {
      hide View, Ethmux.Ethmux.Valid, VenusFramer.VenusFramer.Valid, StateEstimator.StateEstimator.Valid;
      hide FlightControl.FlightControl.Valid, Logger.Logger.Valid, FlightRun, RunRecords, Defined, Run;
      hide MayPower, MadeFor;
      hide RollServo.DecodeCommand, RollServo.Ticks, RollServo.Convertible;
      control.RunIs();
      control.ServoDatagrams();
      DefinedWithin(ethmux.received);
      var rolls := Run(LawOf(control.lib), FlightRun(ethmux.received).events).rolls;
      if !rolls[k].disable {
        var i := PoweredFor(LawOf(control.lib), ethmux.received, k);
      }
    }

    /**
     * Ends the flight. The log file then decodes, and its records are, in order and with payload, those of the
     * datagrams received, those of all arming signals sent and those of all servo commands; the datagrams sent to the
     * ground decode to the networked records of the datagrams received.
     */
    method Finish() returns (disk: seq<Message>, ground: seq<Message>)
      requires Valid()
      modifies this`reading, logger
      ensures ethmux.received == old(ethmux.received)
      ensures DecodeAll(logger.diskOut) == Some(disk) && GroundRecords(logger.netOut) == Some(ground)
      ensures WholeLog(LawOf(control.lib), angleBytes, ethmux.received, disk, ground)
      ensures LogBatching.NumbersAgree(logger.log.closed, disk, logger.netOut)
    {
      hide Ethmux.Ethmux.Valid, VenusFramer.VenusFramer.Valid, StateEstimator.StateEstimator.Valid;
      hide FlightControl.FlightControl.Valid, Logger.Logger.Valid, FlightRun, RunRecords, Defined, Run;
      hide LogBatching.Messages, LogBatching.NetMessages, WithId, FromDatagrams, DecodeAll, GroundRecords;
      hide LogBatching.Flatten, LogBatching.Batches, LogBatching.DiskRecords, LogBatching.NetPackets;
      control.RunIs();
      var now := Now();
      ghost var es := LogBatching.Logged(logger.calls);
      CallsAndRecords(es);
      CallsAndNetRecords(es);
      logger.LoggerFinal(now);
      logger.Outputs();
      ghost var closed := logger.log.closed;
      DiskForDatagrams(closed);
      OwnIdsAreNotNumbers();
      DiskWithId(closed, IdBytes("MESG"));
      DiskWithId(closed, IdBytes("ROLL"));
      GroundReads(closed);
      disk := DecodeAll(logger.diskOut).value;
      ground := GroundRecords(logger.netOut).value;
    }
  }

  /** The file and the datagrams to the ground hold what a run of datagrams calls for. */
  ghost predicate WholeLog(law: CanardLaw, angleBytes: real -> seq<byte>, ds: seq<Datagram>,
                           disk: seq<Message>, ground: seq<Message>) {
    hide WithinBuffers, NoEmptyPacket, FlightRun, Run;
    && Defined(ds)
    && FromDatagrams(disk) == LogBatching.Messages(RunRecords(ds))
    && FromDatagrams(ground) == LogBatching.NetMessages(RunRecords(ds))
    && Datas(WithId(disk, OwnId(SignalCall))) == SignalDatas(Run(law, FlightRun(ds).events).signals)
    && Datas(WithId(disk, OwnId(RollCall))) == RollDatas(angleBytes, Run(law, FlightRun(ds).events).rolls)
  }

  lemma OwnIdsAreNotNumbers()
    ensures IdBytes("MESG") != IdBytes("SEQN") && IdBytes("ROLL") != IdBytes("SEQN")
  {
    IdBytesInjective("MESG", "SEQN");
    IdBytesInjective("ROLL", "SEQN");
  }

  lemma NothingDone(f: Flight)
    ensures AllDeliverable([]) && AllLoggable([]) && ReactAll(f, []) == Reaction(f, [], []) && Records([]) == []
  {
  }

  lemma OneMoreRecorded(ds: seq<Datagram>, d: Datagram)
    requires Defined(ds) && Defined(ds + [d])
    ensures AllDeliverable(NewOutputs(ds, d))
    ensures var now := ReactAll(FlightRun(ds).f, NewOutputs(ds, d));
            && FlightRun(ds + [d]).f == now.f && FlightRun(ds + [d]).events == FlightRun(ds).events + now.events
            && AllLoggable(now.logs) && RunRecords(ds + [d]) == RunRecords(ds) + Records(now.logs)
  {
    hide WithinBuffers, NoEmptyPacket, FlightRun, NewOutputs, Loggable, Record;
    NewDeliverable(ds, d);
    RunOneMore(ds, d);
    RunLoggable(ds);
    RunLoggable(ds + [d]);
    LoggableParts(FlightRun(ds).logs, NewReaction(ds, d).logs);
  }

  /** Handling one more output. */
  lemma OneMoreDone(f: Flight, outs: seq<Output>, k: nat)
    requires k < |outs| && AllDeliverable(outs) && AllLoggable(ReactAll(f, outs).logs) && AllDeliverable(outs[..k])
    ensures AllDeliverable(outs[..k + 1]) && Deliverable(outs[k])
    ensures var done := ReactAll(f, outs[..k]);
            var now := React(done.f, outs[k]);
            && AllLoggable(done.logs) && AllLoggable(now.logs) && AllLoggable(done.logs + now.logs)
            && ReactAll(f, outs[..k + 1]) == Reaction(now.f, done.events + now.events, done.logs + now.logs)
            && Records(done.logs + now.logs) == Records(done.logs) + Records(now.logs)
  {
    hide React, Deliverable, Loggable, Record;
    assert outs == outs[..k] + outs[k..] && outs[..k + 1] == outs[..k] + [outs[k]];
    assert outs == outs[..k + 1] + outs[k + 1..];
    assert outs[k] in outs;
    ReactAllConcat(f, outs[..k], [outs[k]]);
    ReactAllConcat(f, outs[..k + 1], outs[k + 1..]);
    LoggableParts(ReactAll(f, outs[..k + 1]).logs, ReactAll(ReactAll(f, outs[..k + 1]).f, outs[k + 1..]).logs);
    OneReaction(ReactAll(f, outs[..k]).f, outs[k]);
    LoggableParts(ReactAll(f, outs[..k]).logs, React(ReactAll(f, outs[..k]).f, outs[k]).logs);
  }

  lemma OneReaction(f: Flight, o: Output)
    requires Deliverable(o)
    ensures AllDeliverable([o]) && ReactAll(f, [o]) == React(f, o)
  {
    hide React, Deliverable;
    assert [o][1..] == [];
    var r := React(f, o);
    assert r.events + [] == r.events && r.logs + [] == r.logs;
  }

  /** What a packet handed on leads to. */
  lemma DeliveryOf(f: Flight, src: Source, timestamp: seq<byte>, payload: seq<byte>)
    requires Deliverable(Deliver(src, timestamp, payload))
    ensures var r, log := React(f, Deliver(src, timestamp, payload)), Plain(SourceId(src), timestamp, payload);
            if src == Adis then
              var est := StateEstimator.OnImu(f.est, StateReading(timestamp, payload));
              var events := [Imu(ArmSample(payload))] + [StateMessage("VSTE", timestamp, est.state)];
              r == Reaction(f.(est := est), events, [log])
            else if src == RnhUmbdet then r == Reaction(f, [Umbilical("RNHU", payload[0], timestamp)], [log])
            else if src == Jgps then
              r == Reaction(f, [], [LogCall("JGPS", timestamp, |payload|, payload, ToGround("JGPS"))])
            else if src == GpsCots then
              var fed := Feed(f.rest, payload);
              r == Reaction(f.(rest := fed.rest), GpsEvents(fed.out), GpsLogs(timestamp, fed.out))
            else r == Reaction(f, [], [log])
  {
    hide StateEstimator.OnImu, StateReading, ArmSample, SourceId, Feed;
  }

  lemma AtMostOne(law: CanardLaw, m: Machine, e: Event)
    ensures |Step(law, m, e).signals| <= 1 && |Step(law, m, e).rolls| <= 1
  {
    hide Step;
    StepSignals(law, m, e);
    StepEnable(law, m, e);
  }
}
