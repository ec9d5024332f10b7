/**
 * The whole flight computer over runs of datagrams. Theorems about runs suppose that the C code stays within its
 * buffers: exactly which datagrams make it leave them is proved first.
 */
module FlightComputer {
  import opened Bytes
  import opened SequenceTracking
  import opened VenusFrames
  import opened VenusGuarantees
  import opened FinLaw
  import opened RollServo
  import opened FlightSafety
  import opened Routing
  import opened ControlHistory
  import Arm
  import Ethmux
  import PsasTime
  import RollControl
  import StateEstimator

  // ---------------------------------------------------------------- what is handed on

  /** What the demultiplexer has handed on. */
  function Outputs(ds: seq<Datagram>): seq<Output> {
    DemuxAll(ds, Ethmux.InitialNexts()).outs
  }

  /** The numbers expected next. */
  function Nexts(ds: seq<Datagram>): (nexts: map<Source, nat>)
    ensures Tracks(nexts)
  {
    DemuxAll(ds, Ethmux.InitialNexts()).nexts
  }

  /** What is handed on for one more datagram. */
  function NewOutputs(ds: seq<Datagram>, d: Datagram): seq<Output> {
    Demux(d, Nexts(ds)).outs
  }

  lemma OneMore(ds: seq<Datagram>, d: Datagram)
    ensures Outputs(ds + [d]) == Outputs(ds) + NewOutputs(ds, d)
    ensures Nexts(ds + [d]) == Demux(d, Nexts(ds)).nexts
  {
    hide Demux, DemuxAll;
    Ethmux.DemuxAllThenOne(ds, d, Ethmux.InitialNexts());
  }

  lemma {:induction false} OneMorePayloads(ds: seq<Datagram>, d: Datagram)
    ensures CotsPayloads(Outputs(ds + [d])) == CotsPayloads(Outputs(ds)) + CotsPayloads(NewOutputs(ds, d))
  {
    hide Outputs, NewOutputs, CotsPayloads;
    OneMore(ds, d);
    PayloadsConcat(Outputs(ds), NewOutputs(ds, d));
  }

  // ---------------------------------------------------------------- the GPS buffer

  /** A datagram as the socket hands it over. */
  predicate IsReceived(d: Datagram) {
    |d.bytes| <= ETH_MTU && |d.timestamp| == 6
  }

  /** The largest GPS datagram whose payload the GPS buffer holds. */
  const MAX_GPS_DATAGRAM := 4 + BUFFER_SIZE

  /** A larger GPS datagram does no harm if its number is old. */
  predicate GpsFits(d: Datagram, next: nat) {
    d.source == GpsCots ==> |d.bytes| <= MAX_GPS_DATAGRAM || Number(d.bytes) < next
  }

  /** For one datagram: every GPS payload handed on fits the buffer exactly when it is small enough or old. */
  lemma GpsFitsExactly(d: Datagram, nexts: map<Source, nat>)
    requires Tracks(nexts) && |d.bytes| <= ETH_MTU
    ensures (forall p :: p in CotsPayloads(Demux(d, nexts).outs) ==> |p| <= BUFFER_SIZE) <==> GpsFits(d, nexts[GpsCots])
  {
    hide Number;
    var outs := Demux(d, nexts).outs;
    DemuxShape(d, nexts);
    assert CotsPayloads([]) == [];
    if |outs| == 2 {
      assert outs[1..] == [outs[1]] && [outs[1]][1..] == [];
      assert CotsPayloads(outs) == CotsPayloads([outs[1]]);
    } else if |outs| == 1 {
      assert outs[1..] == [];
    }
    if outs != [] && outs[|outs| - 1].Deliver? && d.source == GpsCots {
      assert CotsPayloads(outs) == [d.bytes[4..]];
      assert d.bytes[4..] in CotsPayloads(outs);
    } else {
      assert CotsPayloads(outs) == [];
    }
  }

  lemma DemuxShape(d: Datagram, nexts: map<Source, nat>)
    requires Tracks(nexts)
    ensures var outs := Demux(d, nexts).outs;
            && |outs| <= 2 && (|outs| == 2 ==> outs[0].Seqe?)
            && forall i :: 0 <= i < |outs| ==> outs[i].source == d.source && outs[i].timestamp == d.timestamp
    ensures var outs := Demux(d, nexts).outs;
            forall i :: 0 <= i < |outs| && outs[i].Deliver? ==>
                          Sequenced(d.source) && |d.bytes| >= 4 && outs[i].payload == d.bytes[4..]
  {
    hide Number;
  }

  /** Datagrams as the socket hands them over, no GPS one too large when its turn comes. */
  predicate WithinBuffers(ds: seq<Datagram>) {
    && (forall d :: d in ds ==> IsReceived(d))
    && forall i :: 0 <= i < |ds| ==> GpsFits(ds[i], Nexts(ds[..i])[GpsCots])
  }

  lemma WithinOneMore(ds: seq<Datagram>, d: Datagram)
    ensures WithinBuffers(ds + [d]) <==> WithinBuffers(ds) && IsReceived(d) && GpsFits(d, Nexts(ds)[GpsCots])
  {
    hide IsReceived, GpsFits, Nexts;
    var all := ds + [d];
    assert all[..|ds|] == ds && all[|ds|] == d;
    forall i | 0 <= i < |ds|
      ensures all[..i] == ds[..i] && all[i] == ds[i]
    {
    }
    assert d in all;
    forall x | x in ds
      ensures x in all
    {
    }
  }

  /** Over a run of received datagrams: exactly when every GPS payload handed on fits the buffer. */
  lemma {:induction false} WithinBuffersExactly(ds: seq<Datagram>)
    requires forall d :: d in ds ==> IsReceived(d)
    ensures (forall p :: p in CotsPayloads(Outputs(ds)) ==> |p| <= BUFFER_SIZE) <==> WithinBuffers(ds)
  {
    hide WithinBuffers, Outputs, Nexts, GpsFits, CotsPayloads, Demux;
    if ds == [] {
      NothingYet();
    } else {
      var front, d := ds[..|ds| - 1], ds[|ds| - 1];
      assert ds == front + [d] && d in ds;
      WithinBuffersExactly(front);
      WithinOneMore(front, d);
      OneMorePayloads(front, d);
      GpsFitsExactly(d, Nexts(front));
    }
  }

  /** In particular when no GPS datagram is larger than 516 bytes. */
  lemma SmallGpsFits(ds: seq<Datagram>)
    requires forall d :: d in ds ==> IsReceived(d) && (d.source == GpsCots ==> |d.bytes| <= MAX_GPS_DATAGRAM)
    ensures WithinBuffers(ds)
  {
    hide Nexts, Number;
  }

  lemma NothingYet()
    ensures WithinBuffers([]) && Outputs([]) == [] && CotsPayloads([]) == []
  {
  }

  /** The number GPS datagrams are held against: one more than that of the latest well-sized one, or 0. */
  lemma GpsExpected(ds: seq<Datagram>)
    ensures var gps := Only(ds, GpsCots); Nexts(ds)[GpsCots] == HeldAgainst(gps, 0, |gps|)
  {
    hide ReceiveAll, HeldAgainst, DemuxAll;
    NonInterference(ds, Ethmux.InitialNexts(), GpsCots);
    NextIsHeldAgainst(Only(ds, GpsCots), 0);
  }

  /** A run of one received datagram that hands 513 bytes to the 512-byte buffer. */
  lemma OversizeGpsHandedOn(timestamp: seq<byte>, body: seq<byte>) returns (d: Datagram)
    requires |timestamp| == 6 && |body| == BUFFER_SIZE + 1
    ensures d == Datagram(GpsCots, timestamp, BigEndian(0, 4) + body)
    ensures IsReceived(d) && Outputs([d]) == [Deliver(GpsCots, timestamp, body)] && !WithinBuffers([d])
  {
    hide BigEndian, FromBigEndian;
    d := Datagram(GpsCots, timestamp, BigEndian(0, 4) + body);
    FirstDatagram(d, body);
    assert CotsPayloads([Deliver(GpsCots, timestamp, body)]) == [body] + [];
    assert body in CotsPayloads(Outputs([d]));
    WithinBuffersExactly([d]);
  }

  /** The first GPS datagram carries number 0 and is handed on. */
  lemma FirstDatagram(d: Datagram, body: seq<byte>)
    requires d.source == GpsCots && d.bytes == BigEndian(0, 4) + body && |d.bytes| <= ETH_MTU
    ensures Outputs([d]) == [Deliver(GpsCots, d.timestamp, body)]
  {
    hide BigEndian, FromBigEndian;
    assert d.bytes[..4] == BigEndian(0, 4) && d.bytes[4..] == body;
    DecodeEncode(0, 4);
    Widths();
    assert [d][1..] == [];
    assert Demux(d, Ethmux.InitialNexts()).outs == [Deliver(GpsCots, d.timestamp, body)];
    assert DemuxAll([], Demux(d, Ethmux.InitialNexts()).nexts).outs == [];
    var outs := Demux(d, Ethmux.InitialNexts()).outs;
    assert outs + [] == outs;
  }

  lemma DemuxDeliverable(d: Datagram, nexts: map<Source, nat>)
    requires Tracks(nexts) && IsReceived(d) && GpsFits(d, nexts[GpsCots])
    ensures AllDeliverable(Demux(d, nexts).outs)
  {
    hide Number;
  }

  lemma {:induction false} OutputsDeliverable(ds: seq<Datagram>)
    requires WithinBuffers(ds)
    ensures AllDeliverable(Outputs(ds))
  {
    hide WithinBuffers, Outputs, Nexts, Demux, Deliverable;
    if ds == [] {
      NothingYet();
    } else {
      var front, d := ds[..|ds| - 1], ds[|ds| - 1];
      assert ds == front + [d];
      WithinOneMore(front, d);
      OutputsDeliverable(front);
      OneMore(front, d);
      DemuxDeliverable(d, Nexts(front));
    }
  }

  // ---------------------------------------------------------------- runs

  /**
   * The run so far: state, the messages to arming and roll control, and the log calls these do not cause themselves.
   */
  function FlightRun(ds: seq<Datagram>): Reaction
    requires WithinBuffers(ds)
  {
    OutputsDeliverable(ds);
    ReactAll(START, Outputs(ds))
  }

  /** The messages of the GPS byte stream. */
  function GpsMessages(ds: seq<Datagram>): seq<Packet> {
    FeedAll([], CotsPayloads(Outputs(ds))).out
  }

  /** No scanned GPS buffer holds a frame with packet length 0. */
  predicate NoEmptyPacket(ds: seq<Datagram>) {
    forall s :: s in Scanned([], CotsPayloads(Outputs(ds))) ==> !HasEmptyFrame(s)
  }

  /** The C code stays within its buffers. */
  predicate Defined(ds: seq<Datagram>) {
    WithinBuffers(ds) && NoEmptyPacket(ds)
  }

  lemma EmptyPacketMessage(ds: seq<Datagram>)
    ensures NoEmptyPacket(ds) <==> EMPTY_MESSAGE !in GpsMessages(ds)
  {
    hide HasEmptyFrame, FeedAll, CotsPayloads, Outputs;
    EmptyMessageExactly([], CotsPayloads(Outputs(ds)));
  }

  lemma DefinedBefore(ds: seq<Datagram>, d: Datagram)
    requires Defined(ds + [d])
    ensures Defined(ds)
  {
    hide WithinBuffers, NoEmptyPacket, FeedAll, CotsPayloads, Outputs, NewOutputs;
    WithinOneMore(ds, d);
    EmptyPacketMessage(ds);
    EmptyPacketMessage(ds + [d]);
    OneMorePayloads(ds, d);
    FeedAllConcat([], CotsPayloads(Outputs(ds)), CotsPayloads(NewOutputs(ds, d)));
  }

  /** What one more datagram leads to. */
  function NewReaction(ds: seq<Datagram>, d: Datagram): Reaction
    requires WithinBuffers(ds + [d])
  {
    WithinOneMore(ds, d);
    DemuxDeliverable(d, Nexts(ds));
    ReactAll(FlightRun(ds).f, NewOutputs(ds, d))
  }

  lemma RunOneMore(ds: seq<Datagram>, d: Datagram)
    requires WithinBuffers(ds + [d])
    ensures WithinBuffers(ds)
    ensures var before, now := FlightRun(ds), NewReaction(ds, d);
            FlightRun(ds + [d]) == Reaction(now.f, before.events + now.events, before.logs + now.logs)
  {
    hide WithinBuffers, ReactAll, Outputs, NewOutputs, Nexts, AllDeliverable;
    WithinOneMore(ds, d);
    OutputsDeliverable(ds);
    OneMore(ds, d);
    NewDeliverable(ds, d);
    ReactAllConcat(START, Outputs(ds), NewOutputs(ds, d));
  }

  lemma NewDeliverable(ds: seq<Datagram>, d: Datagram)
    requires WithinBuffers(ds + [d])
    ensures AllDeliverable(NewOutputs(ds, d))
  {
    hide WithinBuffers;
    WithinOneMore(ds, d);
    DemuxDeliverable(d, Nexts(ds));
  }

  // ---------------------------------------------------------------- the logger's preconditions

  /** The calls made for servo commands, for the arming signals "ARM" and "SAFE", and for the hub's version. */
  predicate IsOwnLog(c: LogCall) {
    && c.toNet
    && ((c.id == "ROLL" && c.dataLength == 9) || (c.id == "MESG" && 3 <= c.dataLength <= 4)
        || (c.id == "VERS" && c.dataLength <= 50))
  }

  /**
   * In a run, every message routed to the logger meets the logger's size precondition exactly when no frame of a
   * scanned GPS buffer is empty; if no GPS datagram finds too little room, exactly when no frame of the GPS byte stream
   * is.
   */
  lemma LoggerPreconditionsExactly(ds: seq<Datagram>)
    requires WithinBuffers(ds)
    ensures AllWithinLimit(FlightRun(ds).logs) <==> NoEmptyPacket(ds)
    ensures var chunks := CotsPayloads(Outputs(ds));
            NoOverrun([], chunks) ==> (NoEmptyPacket(ds) <==> !HasEmptyFrame(Concat(chunks)))
    ensures forall c :: IsOwnLog(c) ==> WithinLimit(c)
  {
    hide WithinBuffers, ReactAll, Outputs, AllWithinLimit, NoEmptyPacket, FeedAll;
    hide HasEmptyFrame, NoOverrun, CotsPayloads;
    OutputsDeliverable(ds);
    ReactAllLogsFit(START, Outputs(ds));
    EmptyPacketMessage(ds);
    if NoOverrun([], CotsPayloads(Outputs(ds))) {
      EmptyMessageInStream(CotsPayloads(Outputs(ds)));
    }
  }

  /** A run of one datagram whose log call does not fit. */
  lemma EmptyPacketLogged(timestamp: seq<byte>) returns (d: Datagram)
    requires |timestamp| == 6
    ensures var frame: seq<byte> := [SYNC_1, SYNC_2, 0, 0, 0, CR, LF];
            d == Datagram(GpsCots, timestamp, BigEndian(0, 4) + frame)
    ensures WithinBuffers([d])
    ensures FlightRun([d]).logs == [LogCall("V800", timestamp, 0xFFFF, [], false)]
    ensures !AllWithinLimit(FlightRun([d]).logs)
  {
    hide BigEndian, Parse;
    var frame: seq<byte> := [SYNC_1, SYNC_2, 0, 0, 0, CR, LF];
    d := Datagram(GpsCots, timestamp, BigEndian(0, 4) + frame);
    FirstDatagram(d, frame);
    assert WithinBuffers([d]);
    var o := Deliver(GpsCots, timestamp, frame);
    assert Outputs([d]) == [o];
    EmptyPacketAccepted();
    assert [] + frame == frame;
    assert Feed([], frame) == Parsed([EMPTY_MESSAGE], []);
    VenusToGround(0);
    VenusIdInjective(0, 0);
    OutputsDeliverable([d]);
    assert o in Outputs([d]);
    var logs := GpsLogs(timestamp, [EMPTY_MESSAGE]);
    assert logs == [LogCall("V800", timestamp, 0xFFFF, [], false)];
    assert React(START, o).logs == logs;
    assert [o][1..] == [];
    assert ReactAll(START, [o]).logs == logs + [];
    assert logs[0] in logs;
  }

  // ---------------------------------------------------------------- the state estimate and the GPS lock

  /** The state estimate of a run is StateEstimator's, on the IMU packets delivered. */
  lemma EstimateOfRun(ds: seq<Datagram>)
    requires Defined(ds)
    ensures AllDeliverable(Outputs(ds))
    ensures FlightRun(ds).f.est == StateEstimator.Run(Readings(Outputs(ds)))
  {
    hide ReactAll, Outputs, WithinBuffers, StateEstimator.Run;
    OutputsDeliverable(ds);
    ReactAllEstimate(START, Outputs(ds));
    StateEstimator.RunIsRunFrom(Readings(Outputs(ds)));
  }

  /** Arming sees exactly the messages of the GPS byte stream, and the framer holds exactly what that stream leaves. */
  lemma GpsOfRun(ds: seq<Datagram>)
    requires Defined(ds)
    ensures FlightRun(ds).f.rest == FeedAll([], CotsPayloads(Outputs(ds))).rest
    ensures GpsOnly(FlightRun(ds).events) == GpsEvents(GpsMessages(ds))
    ensures GpsFix(FlightRun(ds).events) == LatestFix(GpsMessages(ds))
  {
    hide ReactAll, Outputs, WithinBuffers, FeedAll, GpsEvents, GpsFix, LatestFix;
    OutputsDeliverable(ds);
    ReactAllGps(START, Outputs(ds));
    GpsFixOnly(FlightRun(ds).events);
    FixOfMessages(GpsMessages(ds));
  }

  /**
   * The GPS lock depends on the bytes the GPS sent and not on how they were cut into datagrams or mixed with others: it
   * is on exactly when the latest A8 frame among them has a byte of at least 2 after its ID.
   */
  lemma GpsLockIndependentOfChunking(ds: seq<Datagram>, ds': seq<Datagram>)
    requires Defined(ds) && Defined(ds')
    requires var chunks, chunks' := CotsPayloads(Outputs(ds)), CotsPayloads(Outputs(ds'));
             Concat(chunks) == Concat(chunks') && NoOverrun([], chunks) && NoOverrun([], chunks')
    ensures FlightRun(ds).f.rest == FlightRun(ds').f.rest
    ensures GpsFix(FlightRun(ds).events) == GpsFix(FlightRun(ds').events)
    ensures var stream := Concat(CotsPayloads(Outputs(ds)));
            GpsFix(FlightRun(ds).events) <==> exists k: nat :: FixFrame(stream, ReadFrom(stream, 0).starts, k)
  {
    hide FlightRun, FeedAll, NoOverrun, CotsPayloads, Outputs, GpsFix, Defined, LatestFix, FixFrame, Parse, ReadFrom;
    GpsOfRun(ds);
    GpsOfRun(ds');
    ChunkingIndependence(CotsPayloads(Outputs(ds)), CotsPayloads(Outputs(ds')));
    FixInStream(Concat(CotsPayloads(Outputs(ds))));
  }

  // ---------------------------------------------------------------- the messages one datagram leads to

  /** A datagram is delivered, not just reported. */
  predicate Delivered(outs: seq<Output>) {
    exists i :: 0 <= i < |outs| && outs[i].Deliver?
  }

  /** A datagram delivers an umbilical message. */
  predicate UmbilicalDelivered(ds: seq<Datagram>, d: Datagram): (b: bool)
    ensures b ==> |d.bytes| == 5
  {
    hide Number, DemuxAll;
    d.source == RnhUmbdet && Delivered(NewOutputs(ds, d))
  }

  lemma ReactAllShort(f: Flight, outs: seq<Output>)
    requires AllDeliverable(outs) && |outs| <= 2 && (|outs| == 2 ==> outs[0].Seqe?)
    ensures outs == [] ==> ReactAll(f, outs) == Reaction(f, [], [])
    ensures outs != [] ==>
              && Deliverable(Last(outs))
              && ReactAll(f, outs).events == React(f, Last(outs)).events
              && ReactAll(f, outs).f == React(f, Last(outs)).f
    decreases |outs|
  {
    hide React, Deliverable;
    if |outs| == 1 {
      assert outs[0] in outs && outs[1..] == [];
      assert React(f, outs[0]).events + [] == React(f, outs[0]).events;
    } else if |outs| == 2 {
      assert outs[0] in outs && outs[1] in outs;
      ReactReport(f, outs[0]);
      assert outs[1..] == [outs[1]];
      ReactAllShort(f, [outs[1]]);
      assert [] + React(f, outs[1]).events == React(f, outs[1]).events;
    }
  }

  lemma ReactReport(f: Flight, o: Output)
    requires Deliverable(o) && o.Seqe?
    ensures React(f, o).f == f && React(f, o).events == []
  {
  }

  /**
   * A delivered IMU datagram leads to one IMU message and then one state message, with the datagram's time and the new
   * estimate; a non-empty command datagram to itself; a delivered umbilical datagram to its message; all other
   * datagrams to GPS messages only.
   */
  lemma DatagramEvents(ds: seq<Datagram>, d: Datagram)
    requires Defined(ds + [d])
    ensures var events := NewReaction(ds, d).events;
            if d.source == Adis && Delivered(NewOutputs(ds, d)) then
              && ImuThenState(events, d.timestamp)
              && |d.bytes| == 4 + DataLength(Adis) && events[0].sample == ArmSample(d.bytes[4..])
              && events[1].data == FlightRun(ds + [d]).f.est.state
            else if d.source == Source.Arm && d.bytes != [] then events == [ArmDatagram(d.bytes)]
            else if d.source == RcServoEnable && d.bytes != [] then events == [TestDatagram(d.bytes)]
            else if UmbilicalDelivered(ds, d) then events == [Umbilical("RNHU", d.bytes[4], d.timestamp)]
            else forall e :: e in events ==> e.Gps?
  {
    hide React, ReactAll, WithinBuffers, NoEmptyPacket, FlightRun, Number, ArmSample;
    RunOneMore(ds, d);
    NewDeliverable(ds, d);
    var f, outs := FlightRun(ds).f, NewOutputs(ds, d);
    DemuxShape(d, Nexts(ds));
    ReactAllShort(f, outs);
    if outs != [] {
      ReactEvents(f, Last(outs));
    }
  }

  /**
   * The estimate after a delivered IMU datagram, in its bytes: it has launched if it had or if acc_x, high byte first,
   * is beyond 40 m/s^2; then acc_x less gravity is the acceleration and minus gyro_x the roll rate.
   */
  lemma ImuEstimate(ds: seq<Datagram>, d: Datagram)
    requires Defined(ds + [d]) && d.source == Adis && Delivered(NewOutputs(ds, d))
    ensures WithinBuffers(ds) && |d.bytes| == 28
    ensures var before, est := FlightRun(ds).f.est, FlightRun(ds + [d]).f.est;
            var accel := 0.00333 * 9.80665 * HighFirst(d.bytes, 12) as real;
            && est == StateEstimator.OnImu(before, StateReading(d.timestamp, d.bytes[4..]))
            && est.lastTime == FromBigEndian(d.timestamp)
            && est.hasLaunched == (before.hasLaunched || accel > 40.0 || accel < -40.0)
            && (est.hasLaunched ==>
                  && est.state.accUp == accel - 9.81
                  && est.state.rollRate == -(0.05 * HighFirst(d.bytes, 6) as real))
  {
    hide React, ReactAll, WithinBuffers, NoEmptyPacket, FlightRun, Number, FromBigEndian, HighFirst;
    hide StateEstimator.OnImu, StateReading;
    RunOneMore(ds, d);
    NewDeliverable(ds, d);
    DemuxShape(d, Nexts(ds));
    ReactAllShort(FlightRun(ds).f, NewOutputs(ds, d));
    ReactEstimate(FlightRun(ds).f, Last(NewOutputs(ds, d)));
    EstimateFields(FlightRun(ds).f.est, d.timestamp, d.bytes);
  }

  lemma EstimateFields(before: StateEstimator.Estimate, timestamp: seq<byte>, bytes: seq<byte>)
    requires |bytes| == 28
    ensures var est := StateEstimator.OnImu(before, StateReading(timestamp, bytes[4..]));
            var accel := 0.00333 * 9.80665 * HighFirst(bytes, 12) as real;
            && est.lastTime == FromBigEndian(timestamp)
            && est.hasLaunched == (before.hasLaunched || accel > 40.0 || accel < -40.0)
            && (est.hasLaunched ==>
                  && est.state.accUp == accel - 9.81
                  && est.state.rollRate == -(0.05 * HighFirst(bytes, 6) as real))
  {
    hide StateReading, FromBigEndian, StateEstimator.Seconds, StateEstimator.Over;
    ReadingBytes(timestamp, bytes[4..]);
    assert HighFirst(bytes[4..], 8) == HighFirst(bytes, 12) && HighFirst(bytes[4..], 2) == HighFirst(bytes, 6);
  }

  /** The arming signals that datagram d adds to those of the run ds. */
  function NewSignals(law: CanardLaw, ds: seq<Datagram>, d: Datagram): seq<Arm.Signal>
    requires WithinBuffers(ds + [d])
  {
    ControlOneMore(law, ds, d);
    Run(law, FlightRun(ds + [d]).events).signals[|Run(law, FlightRun(ds).events).signals|..]
  }

  /** The servo commands that datagram d adds to those of the run ds. */
  function NewRolls(law: CanardLaw, ds: seq<Datagram>, d: Datagram): seq<RollServoData>
    requires WithinBuffers(ds + [d])
  {
    ControlOneMore(law, ds, d);
    Run(law, FlightRun(ds + [d]).events).rolls[|Run(law, FlightRun(ds).events).rolls|..]
  }

  /** A datagram's effect on arming and roll control is that of the messages it leads to. */
  lemma ControlOneMore(law: CanardLaw, ds: seq<Datagram>, d: Datagram)
    requires WithinBuffers(ds + [d])
    ensures WithinBuffers(ds)
    ensures var before, after := Run(law, FlightRun(ds).events), Run(law, FlightRun(ds + [d]).events);
            var added := RunFrom(law, before.m, NewReaction(ds, d).events);
            after == Trace(added.m, before.signals + added.signals, before.rolls + added.rolls)
  {
    hide FlightRun, NewReaction, WithinBuffers, Run, RunFrom;
    RunOneMore(ds, d);
    RunSplit(law, FlightRun(ds).events, NewReaction(ds, d).events);
  }

  // ---------------------------------------------------------------- arming, from datagrams

  predicate OnArmPort(d: Datagram) {
    d.source == Source.Arm && d.bytes != []
  }

  /** The sensor lock is on unless the latest lock command on the ARM port switched it off. */
  predicate LockSetting(ds: seq<Datagram>) {
    ds == [] ||
    if OnArmPort(Last(ds)) && Arm.EnableLockBytes(Last(ds).bytes) then true
    else if OnArmPort(Last(ds)) && Arm.DisableLockBytes(Last(ds).bytes) then false
    else LockSetting(ds[..|ds| - 1])
  }

  lemma {:induction false} LockKeeps(h: seq<Event>, later: seq<Event>)
    requires forall e :: e in later ==> !e.ArmDatagram?
    ensures SensorLock(h + later) == SensorLock(h)
  {
    hide Arm.EnableLockBytes, Arm.DisableLockBytes;
    if later == [] {
      assert h + later == h;
    } else {
      assert (h + later)[..|h + later| - 1] == h + later[..|later| - 1];
      LockKeeps(h, later[..|later| - 1]);
    }
  }

  lemma {:induction false} LockOfRun(ds: seq<Datagram>)
    requires Defined(ds)
    ensures SensorLock(FlightRun(ds).events) == LockSetting(ds)
  {
    hide Defined, WithinBuffers, FlightRun, NewReaction, NewOutputs, Delivered, ImuThenState;
    hide Arm.EnableLockBytes, Arm.DisableLockBytes;
    if ds == [] {
      NoEventsYet();
    } else {
      var front, d := ds[..|ds| - 1], ds[|ds| - 1];
      assert ds == front + [d];
      DefinedBefore(front, d);
      DefinedWithin(front);
      LockOfRun(front);
      LockOneMore(front, d);
    }
  }

  lemma NoEventsYet()
    ensures WithinBuffers([]) && FlightRun([]) == Reaction(START, [], [])
  {
  }

  lemma DefinedWithin(ds: seq<Datagram>)
    requires Defined(ds)
    ensures WithinBuffers(ds)
  {
  }

  lemma LockOneMore(ds: seq<Datagram>, d: Datagram)
    requires Defined(ds + [d]) && WithinBuffers(ds)
    ensures WithinBuffers(ds + [d])
    ensures SensorLock(FlightRun(ds + [d]).events) ==
            if OnArmPort(d) && Arm.EnableLockBytes(d.bytes) then true
            else if OnArmPort(d) && Arm.DisableLockBytes(d.bytes) then false
            else SensorLock(FlightRun(ds).events)
  {
    hide Defined, WithinBuffers, FlightRun, NewReaction, NewOutputs, Delivered;
    hide Arm.EnableLockBytes, Arm.DisableLockBytes;
    DefinedWithin(ds + [d]);
    DatagramEvents(ds, d);
    RunOneMore(ds, d);
    var h, events := FlightRun(ds).events, NewReaction(ds, d).events;
    if d.source == Source.Arm && d.bytes != [] {
      assert (h + events)[..|h + events| - 1] == h;
    } else {
      LockKeeps(h, events);
    }
  }

  /** The accelerations of the IMU packets delivered, as arming reads them. */
  function Accelerations(ds: seq<Datagram>): seq<Arm.Sample>
    requires WithinBuffers(ds)
  {
    OutputsDeliverable(ds);
    ImuPayloadSizes(Outputs(ds));
    ArmSamples(ImuPayloads(Outputs(ds)))
  }

  lemma SamplesOfRun(ds: seq<Datagram>)
    requires WithinBuffers(ds)
    ensures ImuSamples(FlightRun(ds).events) == Accelerations(ds)
  {
    hide WithinBuffers, Outputs, ReactAll, ImuSamples, ArmSamples;
    OutputsDeliverable(ds);
    ImuPayloadSizes(Outputs(ds));
    ReactAllImu(START, Outputs(ds));
  }

  /** The last n packets exist and are upright. */
  predicate LastPacketsUpright(packets: seq<seq<byte>>, n: nat) {
    |packets| >= n && forall i :: |packets| - n <= i < |packets| ==> UprightPacket(packets[i])
  }

  lemma UprightOfRun(ds: seq<Datagram>)
    requires WithinBuffers(ds)
    ensures LastUpright(Accelerations(ds), 100) <==> LastPacketsUpright(ImuPayloads(Outputs(ds)), 100)
  {
    hide WithinBuffers, Outputs, ImuPayloads, UprightPacket, ArmSample, Arm.IsUpright;
    OutputsDeliverable(ds);
    ImuPayloadSizes(Outputs(ds));
    var packets := ImuPayloads(Outputs(ds));
    forall i | 0 <= i < |packets|
      ensures Arm.IsUpright(Accelerations(ds)[i]) <==> UprightPacket(packets[i])
    {
      assert packets[i] in packets;
      UprightBytes(packets[i]);
    }
  }

  lemma {:induction false} NoSignals(law: CanardLaw, m: Machine, h: seq<Event>)
    requires forall e :: e in h ==> !e.ArmDatagram?
    ensures RunFrom(law, m, h).signals == []
  {
    hide RollControl.OnState, RollControl.OnTestCommand, RollControl.OnUmbilical, Arm.OnCommand;
    if h != [] {
      NoSignals(law, m, h[..|h| - 1]);
    }
  }

  /**
   * A datagram makes an ARM signal exactly when it selects ARM on the ARM port and either the latest lock command
   * switched the sensor lock off, or the last 100 IMU packets delivered were upright and the latest A8 frame of the GPS
   * stream has a byte of at least 2 after its ID.
   */
  lemma ArmedExactly(law: CanardLaw, ds: seq<Datagram>, d: Datagram)
    requires Defined(ds + [d])
    ensures WithinBuffers(ds)
    ensures Arm.ARM in NewSignals(law, ds, d) <==>
            && OnArmPort(d) && Arm.ArmBytes(d.bytes)
            && (!LockSetting(ds)
                || (LatestFix(GpsMessages(ds)) && LastPacketsUpright(ImuPayloads(Outputs(ds)), 100)))
  {
    hide Defined, WithinBuffers, FlightRun, NewReaction, NewOutputs, Delivered, Run, RunFrom, Step;
    hide Arm.EnableLockBytes, Arm.DisableLockBytes, Arm.ArmBytes;
    hide Accelerations, LatestFix, LastUpright, LastPacketsUpright, GpsMessages, Outputs, SensorLock, LockSetting;
    hide GpsFix, ImuSamples;
    DefinedWithin(ds + [d]);
    DefinedBefore(ds, d);
    DatagramEvents(ds, d);
    ControlOneMore(law, ds, d);
    var h, events := FlightRun(ds).events, NewReaction(ds, d).events;
    var m := Run(law, h).m;
    assert NewSignals(law, ds, d) == RunFrom(law, m, events).signals;
    if d.source == Source.Arm && d.bytes != [] {
      var e := ArmDatagram(d.bytes);
      RunFromOne(law, m, e);
      ArmingRule(law, h, e);
      LockOfRun(ds);
      GpsOfRun(ds);
      SamplesOfRun(ds);
      UprightOfRun(ds);
    } else {
      NoSignals(law, m, events);
    }
  }

  // ---------------------------------------------------------------- the flight timeout, from datagrams

  /** A command sent for later messages is sent for one of them. */
  lemma {:induction false} RollFromStep(law: CanardLaw, h: seq<Event>, later: seq<Event>, cmd: RollServoData)
    returns (i: nat)
    requires cmd in RunFrom(law, Run(law, h).m, later).rolls
    ensures i < |later| && cmd in Step(law, Run(law, h + later[..i]).m, later[i]).rolls
  {
    hide Step, Run;
    var n := |later| - 1;
    var front := later[..n];
    RunSplit(law, h, front);
    if cmd in RunFrom(law, Run(law, h).m, front).rolls {
      i := RollFromStep(law, h, front, cmd);
      assert front[..i] == later[..i];
    } else {
      i := n;
    }
  }

  /** The latest umbilical datagram delivered reported a disconnected umbilical. */
  predicate UmbilicalOff(ds: seq<Datagram>) {
    ds != [] &&
    var front, last := ds[..|ds| - 1], Last(ds);
    if UmbilicalDelivered(front, last) then last.bytes[4] == 0 else UmbilicalOff(front)
  }

  /** The umbilical was disconnected by the k-th datagram. */
  predicate DropsAt(ds: seq<Datagram>, k: nat) {
    k < |ds| && UmbilicalDelivered(ds[..k], ds[k]) && ds[k].bytes[4] == 0 && !UmbilicalOff(ds[..k])
  }

  predicate LatestDrop(ds: seq<Datagram>, k: nat) {
    DropsAt(ds, k) && forall j :: k < j < |ds| ==> !DropsAt(ds, j)
  }

  lemma AnotherDatagram(ds: seq<Datagram>, d: Datagram)
    ensures UmbilicalOff(ds + [d]) == if UmbilicalDelivered(ds, d) then d.bytes[4] == 0 else UmbilicalOff(ds)
    ensures if UmbilicalDelivered(ds, d) && d.bytes[4] == 0 && !UmbilicalOff(ds) then LatestDrop(ds + [d], |ds|)
            else forall k: nat :: LatestDrop(ds, k) ==> LatestDrop(ds + [d], k)
  {
    hide UmbilicalDelivered;
    var all := ds + [d];
    assert all[..|ds|] == ds;
    forall k: nat | k < |ds|
      ensures DropsAt(all, k) <==> DropsAt(ds, k)
    {
      assert all[..k] == ds[..k];
    }
  }

  /** The umbilical's history in messages is that in datagrams. */
  lemma {:induction false} DropsOfRun(ds: seq<Datagram>)
    requires Defined(ds)
    ensures Disconnected(FlightRun(ds).events) == UmbilicalOff(ds)
    ensures forall k: nat :: LatestDisconnect(FlightRun(ds).events, k) ==>
              exists j: nat :: LatestDrop(ds, j) && ds[j].timestamp == FlightRun(ds).events[k].timestamp
  {
    hide Defined, WithinBuffers, FlightRun, NewReaction, UmbilicalDelivered, UmbilicalOff, LatestDrop;
    hide Disconnected, LatestDisconnect;
    if ds == [] {
      NoEventsYet();
      NoDropsYet();
    } else {
      var front, d := ds[..|ds| - 1], ds[|ds| - 1];
      assert ds == front + [d];
      DefinedBefore(front, d);
      DefinedWithin(front);
      DropsOfRun(front);
      DropsOneMore(front, d);
    }
  }

  lemma NoDropsYet()
    ensures !Disconnected([]) && !UmbilicalOff([]) && forall k: nat :: !LatestDisconnect([], k)
  {
  }

  lemma DropsOneMore(ds: seq<Datagram>, d: Datagram)
    requires Defined(ds + [d]) && WithinBuffers(ds)
    requires Disconnected(FlightRun(ds).events) == UmbilicalOff(ds)
    requires forall k: nat :: LatestDisconnect(FlightRun(ds).events, k) ==>
               exists j: nat :: LatestDrop(ds, j) && ds[j].timestamp == FlightRun(ds).events[k].timestamp
    ensures WithinBuffers(ds + [d])
    ensures Disconnected(FlightRun(ds + [d]).events) == UmbilicalOff(ds + [d])
    ensures forall k: nat :: LatestDisconnect(FlightRun(ds + [d]).events, k) ==>
              exists j: nat :: LatestDrop(ds + [d], j)
                          && (ds + [d])[j].timestamp == FlightRun(ds + [d]).events[k].timestamp
  {
    hide Defined, WithinBuffers, FlightRun, NewReaction, NewOutputs, UmbilicalOff;
    hide Disconnected, Delivered;
    DefinedWithin(ds + [d]);
    DatagramEvents(ds, d);
    RunOneMore(ds, d);
    AnotherDatagram(ds, d);
    var h, events := FlightRun(ds).events, NewReaction(ds, d).events;
    if UmbilicalDelivered(ds, d) {
      assert events == [events[0]] && IsUmbilical(events[0]);
      AnotherMessage(h, events[0]);
    } else {
      NoUmbilical(h, events);
    }
    forall k: nat | LatestDisconnect(h + events, k)
      ensures exists j: nat :: LatestDrop(ds + [d], j) && (ds + [d])[j].timestamp == (h + events)[k].timestamp
    {
      if k < |h| {
        assert LatestDisconnect(h, k);
        var j: nat :| LatestDrop(ds, j) && ds[j].timestamp == h[k].timestamp;
        assert (ds + [d])[j] == ds[j] && LatestDrop(ds + [d], j);
      } else {
        assert LatestDrop(ds + [d], |ds|);
      }
    }
  }

  /**
   * In every run of datagrams, a servo command that leaves the servo powered is sent only in reaction to a delivered
   * IMU datagram, and in flight only to one stamped at most 120 s after the datagram that last disconnected the
   * umbilical.
   */
  lemma PoweredOnlyInTime(law: CanardLaw, ds: seq<Datagram>, d: Datagram, cmd: RollServoData)
    requires Defined(ds + [d])
    requires cmd in NewRolls(law, ds, d) && !cmd.disable
    ensures d.source == Adis && Delivered(NewOutputs(ds, d))
    ensures UmbilicalOff(ds) ==> exists j: nat :: LatestDrop(ds, j) && InTime(d, ds[j])
  {
    hide Defined, WithinBuffers, FlightRun, NewReaction, NewOutputs, Delivered, Step, Run, RunFrom, PsasTime.Decoded;
    hide UmbilicalOff, LatestDrop, Disconnected, LatestDisconnect;
    DefinedWithin(ds + [d]);
    DefinedBefore(ds, d);
    ControlOneMore(law, ds, d);
    var h, events := FlightRun(ds).events, NewReaction(ds, d).events;
    assert NewRolls(law, ds, d) == RunFrom(law, Run(law, h).m, events).rolls;
    var i := RollFromStep(law, h, events, cmd);
    TimeoutSafety(law, h + events[..i], events[i], cmd);
    DatagramEvents(ds, d);
    assert events[i] in events;
    assert ImuThenState(events, d.timestamp) && i == 1;
    assert events[..1] == [events[0]];
    NoUmbilical(h, events[..1]);
    DropsOfRun(ds);
  }

  /** A datagram is stamped at most 120 s after the other. */
  predicate InTime(d: Datagram, drop: Datagram) {
    PsasTime.Decoded(d.timestamp) <= PsasTime.Decoded(drop.timestamp) + RollControl.TIMEOUT
  }

  /** The i-th datagram may make a command that leaves the servo powered. */
  ghost predicate MayPower(ds: seq<Datagram>, i: nat) {
    && i < |ds| && ds[i].source == Adis && Delivered(NewOutputs(ds[..i], ds[i]))
    && (UmbilicalOff(ds[..i]) ==> exists j: nat :: LatestDrop(ds[..i], j) && InTime(ds[i], ds[..i][j]))
  }

  /** The k-th servo command was made for the i-th datagram. */
  predicate MadeFor(law: CanardLaw, ds: seq<Datagram>, k: nat, i: nat)
  {
    && i < |ds| && WithinBuffers(ds[..i]) && WithinBuffers(ds[..i + 1])
    && |Run(law, FlightRun(ds[..i]).events).rolls| <= k < |Run(law, FlightRun(ds[..i + 1]).events).rolls|
  }

  /** Over a whole run, every command that leaves the servo powered was made for such a datagram. */
  lemma {:induction false} PoweredFor(law: CanardLaw, ds: seq<Datagram>, k: nat) returns (i: nat)
    requires Defined(ds)
    requires k < |Run(law, FlightRun(ds).events).rolls| && !Run(law, FlightRun(ds).events).rolls[k].disable
    ensures MadeFor(law, ds, k, i) && MayPower(ds, i)
  {
    hide Defined, WithinBuffers, FlightRun, NewReaction, NewOutputs, Delivered, Run, RunFrom, InTime;
    hide UmbilicalOff, LatestDrop;
    DefinedWithin(ds);
    if ds == [] {
      NoEventsYet();
      NoCommandsYet(law);
    } else {
      var front, d := ds[..|ds| - 1], ds[|ds| - 1];
      assert ds == front + [d];
      DefinedBefore(front, d);
      DefinedWithin(front);
      ControlOneMore(law, front, d);
      var n := |Run(law, FlightRun(front).events).rolls|;
      if k < n {
        i := PoweredFor(law, front, k);
        assert front[..i] == ds[..i] && front[..i + 1] == ds[..i + 1];
      } else {
        i := |front|;
        var cmd := Run(law, FlightRun(ds).events).rolls[k];
        assert cmd == NewRolls(law, front, d)[k - n];
        PoweredOnlyInTime(law, front, d, cmd);
        assert ds[..i] == front && ds[..i + 1] == ds;
      }
    }
  }

  lemma NoCommandsYet(law: CanardLaw)
    ensures Run(law, []).rolls == []
  {
  }

  /**
   * And once an IMU datagram stamped later than that is delivered, the servo is disabled and the last command sent, if
   * any, says so.
   */
  lemma DisabledInTime(law: CanardLaw, ds: seq<Datagram>, d: Datagram)
    requires Defined(ds + [d])
    requires d.source == Adis && Delivered(NewOutputs(ds, d)) && UmbilicalOff(ds)
    requires forall j: nat :: LatestDrop(ds, j) ==> !InTime(d, ds[j])
    ensures var t := Run(law, FlightRun(ds + [d]).events);
            !t.m.rc.enableServo && (t.rolls != [] ==> Last(t.rolls).disable)
  {
    hide Defined, WithinBuffers, FlightRun, NewReaction, NewOutputs, Delivered, Run, PsasTime.Decoded;
    hide UmbilicalOff, LatestDrop, Disconnected, LatestDisconnect;
    DefinedWithin(ds + [d]);
    DefinedBefore(ds, d);
    RunOneMore(ds, d);
    DatagramEvents(ds, d);
    DropsOfRun(ds);
    var h, events := FlightRun(ds).events, NewReaction(ds, d).events;
    NoUmbilical(h, [events[0]]);
    assert h + events == (h + [events[0]]) + [events[1]];
    TimeoutDisables(law, h + [events[0]], events[1]);
  }

  lemma DropIsUnique(ds: seq<Datagram>, i: nat, j: nat)
    requires LatestDrop(ds, i) && LatestDrop(ds, j)
    ensures i == j
  {
    hide UmbilicalDelivered, UmbilicalOff;
  }

  /**
   * The timeout has passed for a datagram exactly when it is later than the one that last disconnected the umbilical.
   */
  lemma LateInDatagrams(ds: seq<Datagram>, d: Datagram)
    requires Defined(ds)
    ensures Late(FlightRun(ds).events, d.timestamp) <==>
            UmbilicalOff(ds) && exists j: nat :: LatestDrop(ds, j) && !InTime(d, ds[j])
  {
    hide Defined, WithinBuffers, FlightRun, UmbilicalOff, PsasTime.Decoded, Disconnected, UmbilicalDelivered;
    DefinedWithin(ds);
    DropsOfRun(ds);
    var h := FlightRun(ds).events;
    if Late(h, d.timestamp) {
      var k: nat :| LatestDisconnect(h, k)
               && PsasTime.Decoded(d.timestamp) > PsasTime.Decoded(h[k].timestamp) + 120_000_000_000;
      var j: nat :| LatestDrop(ds, j) && ds[j].timestamp == h[k].timestamp;
      assert !InTime(d, ds[j]);
    }
    if UmbilicalOff(ds) && exists j: nat :: LatestDrop(ds, j) && !InTime(d, ds[j]) {
      var j: nat :| LatestDrop(ds, j) && !InTime(d, ds[j]);
      var k := DisconnectedSince(h);
      var i: nat :| LatestDrop(ds, i) && ds[i].timestamp == h[k].timestamp;
      DropIsUnique(ds, i, j);
    }
  }

  lemma {:induction false} DisconnectedSince(h: seq<Event>) returns (k: nat)
    requires Disconnected(h)
    ensures LatestDisconnect(h, k)
  {
    var n: nat := |h| - 1;
    var front := h[..n];
    if Disconnected(front) {
      k := DisconnectedSince(front);
      KeepsLatest(h, front, k);
    } else {
      k := n;
      assert DisconnectAt(h, n);
    }
  }

  /**
   * A delivered IMU datagram makes no servo command while the servo is not enabled; one that disables it if it comes
   * too late; and otherwise exactly one, for the canard law's angle at the new estimate.
   */
  lemma ImuCommands(law: CanardLaw, ds: seq<Datagram>, d: Datagram)
    requires Defined(ds + [d]) && d.source == Adis && Delivered(NewOutputs(ds, d))
    ensures Defined(ds)
    ensures var h, est := FlightRun(ds).events, FlightRun(ds + [d]).f.est;
            var late := UmbilicalOff(ds) && exists j: nat :: LatestDrop(ds, j) && !InTime(d, ds[j]);
            NewRolls(law, ds, d) ==
            if !EnabledBy(h) then []
            else if late then [RollServoData(0.0, true)]
            else [RollServoData(Angle(law, Integral(h), est.state), false)]
  {
    hide Defined, WithinBuffers, FlightRun, NewReaction, NewOutputs, Delivered, Run, RunFrom, Step, InTime, Late;
    hide UmbilicalOff, LatestDrop, Angle;
    DefinedWithin(ds + [d]);
    DefinedBefore(ds, d);
    ControlOneMore(law, ds, d);
    DatagramEvents(ds, d);
    LateInDatagrams(ds, d);
    var h, events := FlightRun(ds).events, NewReaction(ds, d).events;
    RunOneMore(ds, d);
    ImuIsSilent(h, events[0]);
    assert h + events == (h + [events[0]]) + [events[1]];
    CommandsExactly(law, h, events[0]);
    CommandsExactly(law, h + [events[0]], events[1]);
    LateAfterImu(h, events[0], d.timestamp);
  }

  lemma ImuIsSilent(h: seq<Event>, e: Event)
    requires e.Imu?
    ensures EnabledBy(h + [e]) == EnabledBy(h) && Integral(h + [e]) == Integral(h)
  {
    hide Late, ArmedBy, MayArm, Limited;
    assert (h + [e])[..|h|] == h && Last(h + [e]) == e;
  }

  lemma LateAfterImu(h: seq<Event>, e: Event, stamp: seq<byte>)
    requires e.Imu?
    ensures Late(h + [e], stamp) <==> Late(h, stamp)
  {
    hide PsasTime.Decoded, Disconnected;
    AnotherMessage(h, e);
    if Late(h, stamp) {
      var k: nat :| LatestDisconnect(h, k)
               && PsasTime.Decoded(stamp) > PsasTime.Decoded(h[k].timestamp) + 120_000_000_000;
      var j := DisconnectedSince(h + [e]);
      LatestIsUnique(h, j, k);
      assert (h + [e])[j] == h[j];
    }
  }

  // ---------------------------------------------------------------- safing, from datagrams

  /** A datagram that neither selects ARM nor is a test ENABLE. */
  predicate Harmless(d: Datagram) {
    && !(OnArmPort(d) && Arm.ArmBytes(d.bytes))
    && !(d.source == RcServoEnable && d.bytes != [] && TestEnables(TestDatagram(d.bytes)))
  }

  predicate HarmlessEvent(e: Event) {
    !TestEnables(e) && !(e.ArmDatagram? && Arm.ArmBytes(e.buffer))
  }

  lemma {:induction false} HarmlessEvents(ds: seq<Datagram>, later: seq<Datagram>) returns (events: seq<Event>)
    requires Defined(ds + later) && forall d :: d in later ==> Harmless(d)
    ensures Defined(ds) && FlightRun(ds + later).events == FlightRun(ds).events + events
    ensures forall e :: e in events ==> HarmlessEvent(e)
    decreases |later|
  {
    hide Defined, WithinBuffers, FlightRun, NewReaction, NewOutputs, Delivered, Arm.ArmBytes, RollControl.EnableBytes;
    events := [];
    DefinedWithin(ds + later);
    if later == [] {
      assert ds + later == ds && FlightRun(ds).events + [] == FlightRun(ds).events;
    } else {
      var front, d := later[..|later| - 1], Last(later);
      assert ds + later == (ds + front) + [d];
      DefinedBefore(ds + front, d);
      var before := HarmlessEvents(ds, front);
      DefinedWithin(ds);
      DatagramEvents(ds + front, d);
      RunOneMore(ds + front, d);
      events := before + NewReaction(ds + front, d).events;
      assert Harmless(d);
    }
  }

  lemma {:induction false} NoArmSignal(law: CanardLaw, m: Machine, h: seq<Event>)
    requires forall e :: e in h ==> HarmlessEvent(e)
    ensures Arm.ARM !in RunFrom(law, m, h).signals
  {
    hide Step, HarmlessEvent;
    if h != [] {
      NoArmSignal(law, m, h[..|h| - 1]);
      assert HarmlessEvent(Last(h));
      HarmlessStep(law, RunFrom(law, m, h[..|h| - 1]).m, Last(h));
    }
  }

  lemma HarmlessStep(law: CanardLaw, m: Machine, e: Event)
    requires HarmlessEvent(e)
    ensures Arm.ARM !in Step(law, m, e).signals
  {
    hide Arm.Command, Arm.ArmBytes, RollControl.OnState, RollControl.OnTestCommand, RollControl.OnUmbilical;
    if e.ArmDatagram? {
      Arm.CommandBytes(e.buffer);
    }
  }

  /**
   * In every run of datagrams, after one selecting SAFE and through any later ones that select neither ARM nor a test
   * ENABLE, the servo stays disarmed and disabled, and every command sent from then on disables it.
   */
  lemma SafeHolds(law: CanardLaw, ds: seq<Datagram>, d: Datagram, later: seq<Datagram>)
    requires Defined(ds + [d] + later) && OnArmPort(d) && Arm.SafeBytes(d.bytes)
    requires forall x :: x in later ==> Harmless(x)
    ensures Defined(ds)
    ensures var before, after := Run(law, FlightRun(ds).events), Run(law, FlightRun(ds + [d] + later).events);
            && !after.m.rc.armed && !after.m.rc.enableServo
            && |after.rolls| > |before.rolls| && after.rolls[..|before.rolls|] == before.rolls
            && forall i :: |before.rolls| <= i < |after.rolls| ==> after.rolls[i].disable
  {
    hide Defined, WithinBuffers, FlightRun, NewReaction, NewOutputs, Delivered, Arm.SafeBytes, Run, RunFrom;
    var events := HarmlessEvents(ds + [d], later);
    DefinedBefore(ds, d);
    DefinedWithin(ds + [d]);
    DatagramEvents(ds, d);
    RunOneMore(ds, d);
    var h' := FlightRun(ds).events + [ArmDatagram(d.bytes)];
    NoArmSignal(law, Run(law, h').m, events);
    SafeLasts(law, FlightRun(ds).events, d.bytes, events);
  }
}
