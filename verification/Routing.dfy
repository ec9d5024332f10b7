/**
 * What each output of the demultiplexer leads to, with the receivers of a message called in the order main.miml lists
 * them: messages for arming and roll control, log calls, the GPS framer and the state estimate.
 */
module Routing {
  import opened Bytes
  import opened SequenceTracking
  import opened VenusFrames
  import opened VenusGuarantees
  import opened FlightSafety
  import Arm
  import LogBatching
  import LogFormat
  import PsasTime
  import StateEstimator

  // ---------------------------------------------------------------- messages and IDs

  function SourceId(src: Source): string {
    match src
    case Adis => "ADIS"
    case Mpu => "MPU9"
    case Mpl => "MPL3"
    case Bmp => "BMP1"
    case RnhBattery => "RNHH"
    case RnhPort => "RNHP"
    case RnhAlarm => "RNHA"
    case RnhUmbdet => "RNHU"
    case FcfHealth => "FCFH"
    case Jgps => "JGPS"
    case GpsCots => "V8BS"
    case _ => ""
  }

  function PortNumber(src: Source): nat {
    match src
    case Adis => 35020
    case Mpu => 35002
    case Mpl => 35010
    case Bmp => 35011
    case RnhBattery => 36101
    case RnhPort => 36102
    case RnhAlarm => 36103
    case RnhUmbdet => 36104
    case FcfHealth => 36201
    case Jgps => 35050
    case GpsCots => 35051
    case Arm => 35666
    case RcServoEnable => 35667
    case Unknown => 0
  }

  function HexDigit(d: nat): char
    requires d < 16
  {
    "0123456789ABCDEF"[d]
  }

  /** "V8%02X": the ID given to a Venus message. */
  function VenusId(id: byte): string {
    ['V', '8', HexDigit(id / 16), HexDigit(id % 16)]
  }

  /** The value of a character as an upper-case hexadecimal digit, or -1. */
  function DigitValue(c: char): int {
    if '0' <= c <= '9' then c as int - '0' as int
    else if 'A' <= c <= 'F' then c as int - 'A' as int + 10
    else -1
  }

  /** The ID reads "V8" and the byte in hexadecimal, high digit first. */
  lemma VenusIdReads(id: byte)
    ensures var name := VenusId(id);
            |name| == 4 && name[..2] == "V8" && 16 * DigitValue(name[2]) + DigitValue(name[3]) == id
  {
    hide HexDigit, DigitValue;
    DigitReads(id / 16);
    DigitReads(id % 16);
  }

  lemma DigitReads(d: nat)
    requires d < 16
    ensures DigitValue(HexDigit(d)) == d
  {
    assert HexDigit(d) as int == if d < 10 then 48 + d else 55 + d;
  }

  lemma VenusIdInjective(a: byte, b: byte)
    ensures VenusId(a) == VenusId(b) <==> a == b
    ensures VenusId(0xA8) == "V8A8" && VenusId(0) == "V800"
  {
    hide HexDigit, DigitValue;
    VenusIdReads(a);
    VenusIdReads(b);
    SomeVenusIds();
  }

  lemma SomeVenusIds()
    ensures VenusId(0xA8) == "V8A8" && VenusId(0) == "V800"
  {
  }

  // ---------------------------------------------------------------- reading message fields

  /** A 16-bit two's complement field. */
  function Int16(hi: byte, lo: byte): int {
    var u := U16(hi, lo);
    if u >= 0x8000 then u - TWO_16 else u
  }

  /** The acceleration fields as src/arm.c reads them: in host byte order, low byte first. */
  function ArmSample(payload: seq<byte>): Arm.Sample
    requires |payload| == DataLength(Adis)
  {
    Arm.Sample(Int16(payload[9], payload[8]), Int16(payload[11], payload[10]), Int16(payload[13], payload[12]))
  }

  /** The fields src/state.c integrates: in network byte order. */
  function StateReading(timestamp: seq<byte>, payload: seq<byte>): StateEstimator.Reading
    requires |payload| == DataLength(Adis)
  {
    StateEstimator.FromCounts(PsasTime.Decoded(timestamp), Int16(payload[8], payload[9]), Int16(payload[2], payload[3]))
  }

  /** The signed 16-bit number in two bytes of a packet, low byte first. */
  function LowFirst(p: seq<byte>, i: nat): int
    requires i + 1 < |p|
  {
    (p[i] as int + 256 * (p[i + 1] as int) + 0x8000) % 0x1_0000 - 0x8000
  }

  /** The same, high byte first. */
  function HighFirst(p: seq<byte>, i: nat): int
    requires i + 1 < |p|
  {
    (256 * (p[i] as int) + p[i + 1] as int + 0x8000) % 0x1_0000 - 0x8000
  }

  /** An IMU packet whose acceleration fields (bytes 8 to 13), read low byte first, are within 0.1 g of upright. */
  predicate UprightPacket(p: seq<byte>) {
    |p| == 24 && -330 <= LowFirst(p, 8) <= -271 && -30 <= LowFirst(p, 10) <= 30 && -30 <= LowFirst(p, 12) <= 30
  }

  lemma SignedIs(p: seq<byte>, i: nat)
    requires i + 1 < |p|
    ensures Int16(p[i + 1], p[i]) == LowFirst(p, i) && Int16(p[i], p[i + 1]) == HighFirst(p, i)
  {
  }

  lemma UprightBytes(payload: seq<byte>)
    requires |payload| == DataLength(Adis)
    ensures Arm.IsUpright(ArmSample(payload)) <==> UprightPacket(payload)
  {
    hide Int16, LowFirst, Arm.IsUpright;
    Arm.UprightCounts(ArmSample(payload));
    SignedIs(payload, 8);
    SignedIs(payload, 10);
    SignedIs(payload, 12);
  }

  /** What the estimator reads: the time, and acc_x and gyro_x (bytes 8 and 2), high byte first, in physical units. */
  lemma ReadingBytes(timestamp: seq<byte>, payload: seq<byte>)
    requires |payload| == DataLength(Adis)
    ensures var r := StateReading(timestamp, payload);
            && r.now == FromBigEndian(timestamp)
            && r.accel == 0.00333 * 9.80665 * HighFirst(payload, 8) as real
            && r.rollRate == 0.05 * HighFirst(payload, 2) as real
  {
    hide Int16, HighFirst;
    SignedIs(payload, 8);
    SignedIs(payload, 2);
  }

  /** No IMU packet is upright both as src/arm.c reads it and in the byte order src/state.c reads. */
  lemma ReadingsDisagree(payload: seq<byte>)
    requires |payload| == DataLength(Adis) && Arm.IsUpright(ArmSample(payload))
    ensures !Arm.IsUpright(Arm.Sample(Int16(payload[8], payload[9]), Int16(payload[10], payload[11]),
                                      Int16(payload[12], payload[13])))
  {
    Arm.UprightCounts(ArmSample(payload));
    Arm.UprightCounts(Arm.Sample(Int16(payload[8], payload[9]), Int16(payload[10], payload[11]),
                                 Int16(payload[12], payload[13])));
  }

  /** The byte after a Venus message's ID, read as the fix mode whatever the message's length. */
  function FixByte(m: Packet): byte {
    if m.payload != [] then m.payload[0] else if m.dataLength == 0 then m.id else CR
  }

  /** The byte read is the one after the ID; it is a data byte iff the packet has at least two bytes. */
  lemma FixByteIsNextByte(s: seq<byte>, p: nat)
    requires FrameAt(s, p)
    ensures FixByte(PacketAt(s, p)) == s[p + 5]
    ensures PacketAt(s, p).payload != [] <==> PacketLen(s, p) >= 2
    ensures PacketLen(s, p) == 1 ==> FixByte(PacketAt(s, p)) == s[p + 4]
  {
    LengthArgument(s, p);
    if PacketLen(s, p) == 1 {
      assert s[p + 4..p + 5] == [s[p + 4]];
      XorOfOne(s[p + 4]);
    }
  }

  // ---------------------------------------------------------------- log calls

  /**
   * A call of log_write (toNet) or log_write_disk_only: the length argument and the data of that length, if it is
   * there.
   */
  datatype LogCall = LogCall(id: string, timestamp: seq<byte>, dataLength: nat, data: seq<byte>, toNet: bool)

  /** A call whose length argument is the number of data bytes. */
  function Plain(id: string, timestamp: seq<byte>, data: seq<byte>): LogCall {
    LogCall(id, timestamp, |data|, data, true)
  }

  /** filter_receive: GPS data goes to disk only, except V8A8. */
  predicate ToGround(id: string)
    requires |id| == 4
  {
    !(id[..2] == "V8" || id == "JGPS") || id == "V8A8"
  }

  /** What the logger requires of a call's length. */
  predicate WithinLimit(c: LogCall) {
    LogFormat.HEADER_SIZE + c.dataLength <= if c.toNet then LogBatching.NET_LIMIT else LogBatching.DISK_LIMIT
  }

  function GpsLog(timestamp: seq<byte>, m: Packet): LogCall {
    LogCall(VenusId(m.id), timestamp, m.dataLength, m.payload, ToGround(VenusId(m.id)))
  }

  function GpsLogs(timestamp: seq<byte>, ms: seq<Packet>): (logs: seq<LogCall>)
    ensures |logs| == |ms| && forall i :: 0 <= i < |ms| ==> logs[i] == GpsLog(timestamp, ms[i])
  {
    seq(|ms|, i requires 0 <= i < |ms| => GpsLog(timestamp, ms[i]))
  }

  /** Of the Venus messages only V8A8 goes to the network. */
  lemma VenusToGround(id: byte)
    ensures ToGround(VenusId(id)) <==> id == 0xA8
  {
    VenusIdInjective(id, 0xA8);
    assert VenusId(id)[..2] == "V8";
  }

  // ---------------------------------------------------------------- reacting to an output

  /** The unfinished GPS bytes and the state estimate. */
  datatype Flight = Flight(rest: seq<byte>, est: StateEstimator.Estimate)

  const START := Flight([], StateEstimator.INITIAL)

  datatype Reaction = Reaction(f: Flight, events: seq<Event>, logs: seq<LogCall>)

  /**
   * What the demultiplexer hands on when datagrams fit the receive buffer and GPS packets the framer's: sizes are as
   * its records say, and the MPU's is never met.
   */
  predicate Deliverable(o: Output) {
    && (!o.Raw? ==> Sequenced(o.source) && |o.timestamp| == 6)
    && (o.Deliver? ==>
          && o.source != Mpu && |o.payload| + 4 <= ETH_MTU
          && (DataLength(o.source) != 0 ==> |o.payload| == DataLength(o.source))
          && (o.source == GpsCots ==> |o.payload| <= BUFFER_SIZE))
  }

  predicate AllDeliverable(outs: seq<Output>) {
    forall o :: o in outs ==> Deliverable(o)
  }

  function GpsEvents(ms: seq<Packet>): (events: seq<Event>)
    ensures |events| == |ms|
    ensures forall i :: 0 <= i < |ms| ==> events[i] == Gps(VenusId(ms[i].id), FixByte(ms[i]))
  {
    seq(|ms|, i requires 0 <= i < |ms| => Gps(VenusId(ms[i].id), FixByte(ms[i])))
  }

  function SequenceErrorData(src: Source, expected: nat, received: nat): (data: seq<byte>)
    ensures |data| == 10
  {
    BigEndian(PortNumber(src), 2) + BigEndian(expected, 4) + BigEndian(received, 4)
  }

  function React(f: Flight, o: Output): Reaction
    requires Deliverable(o)
  {
    match o
    case Seqe(src, timestamp, expected, received) =>
      Reaction(f, [], [Plain("SEQE", timestamp, SequenceErrorData(src, expected, received))])
    case Raw(src, _, bytes) =>
      Reaction(f, if src == Source.Arm then [ArmDatagram(bytes)] else [TestDatagram(bytes)], [])
    case Deliver(src, timestamp, payload) =>
      var log := [Plain(SourceId(src), timestamp, payload)];
      match src
      case Adis =>
        var est := StateEstimator.OnImu(f.est, StateReading(timestamp, payload));
        Reaction(f.(est := est), [Imu(ArmSample(payload)), StateMessage("VSTE", timestamp, est.state)], log)
      case RnhUmbdet => Reaction(f, [Umbilical("RNHU", payload[0], timestamp)], log)
      case Jgps => Reaction(f, [], [LogCall("JGPS", timestamp, |payload|, payload, ToGround("JGPS"))])
      case GpsCots =>
        var parsed := Feed(f.rest, payload);
        Reaction(f.(rest := parsed.rest), GpsEvents(parsed.out), GpsLogs(timestamp, parsed.out))
      case _ => Reaction(f, [], log)
  }

  function ReactAll(f: Flight, outs: seq<Output>): Reaction
    requires AllDeliverable(outs)
    decreases |outs|
  {
    hide React, Deliverable;
    if outs == [] then Reaction(f, [], [])
    else
      var first := React(f, outs[0]);
      var rest := ReactAll(first.f, outs[1..]);
      Reaction(rest.f, first.events + rest.events, first.logs + rest.logs)
  }

  lemma Associative<T>(x: seq<T>, y: seq<T>, z: seq<T>)
    ensures (x + y) + z == x + (y + z)
  {
  }

  lemma {:induction false} ReactAllConcat(f: Flight, a: seq<Output>, b: seq<Output>)
    requires AllDeliverable(a) && AllDeliverable(b)
    ensures AllDeliverable(a + b)
    ensures var first := ReactAll(f, a);
            var second := ReactAll(first.f, b);
            ReactAll(f, a + b) == Reaction(second.f, first.events + second.events, first.logs + second.logs)
    decreases |a|
  {
    hide React, Deliverable;
    if a == [] {
      assert a + b == b;
      var second := ReactAll(f, b);
      assert [] + second.events == second.events && [] + second.logs == second.logs;
    } else {
      var step := React(f, a[0]);
      ReactAllConcat(step.f, a[1..], b);
      assert (a + b)[0] == a[0] && (a + b)[1..] == a[1..] + b;
      var first := ReactAll(step.f, a[1..]);
      var second := ReactAll(first.f, b);
      Associative(step.events, first.events, second.events);
      Associative(step.logs, first.logs, second.logs);
    }
  }

  // ---------------------------------------------------------------- the state estimate

  /** The IMU payloads among the outputs. */
  function ImuPayloads(outs: seq<Output>): seq<seq<byte>> {
    if outs == [] then []
    else (if outs[0].Deliver? && outs[0].source == Adis then [outs[0].payload] else []) + ImuPayloads(outs[1..])
  }

  /** The IMU readings among the outputs. */
  function Readings(outs: seq<Output>): seq<StateEstimator.Reading>
    requires AllDeliverable(outs)
  {
    if outs == [] then []
    else
      var o := outs[0];
      assert o in outs;
      (if o.Deliver? && o.source == Adis then [StateReading(o.timestamp, o.payload)] else []) + Readings(outs[1..])
  }

  lemma ReactEstimate(f: Flight, o: Output)
    requires Deliverable(o)
    ensures o.Deliver? && o.source == Adis ==>
              React(f, o).f.est == StateEstimator.OnImu(f.est, StateReading(o.timestamp, o.payload))
    ensures !(o.Deliver? && o.source == Adis) ==> React(f, o).f.est == f.est
  {
    hide Feed, StateEstimator.OnImu, StateReading;
  }

  lemma {:induction false} ReactAllEstimate(f: Flight, outs: seq<Output>)
    requires AllDeliverable(outs)
    ensures ReactAll(f, outs).f.est == StateEstimator.RunFrom(f.est, Readings(outs))
    decreases |outs|
  {
    hide React, StateEstimator.OnImu, StateReading;
    if outs != [] {
      var o, rest := outs[0], Readings(outs[1..]);
      ReactEstimate(f, o);
      ReactAllEstimate(React(f, o).f, outs[1..]);
      if o.Deliver? && o.source == Adis {
        var r := StateReading(o.timestamp, o.payload);
        StateEstimator.RunFromConcat(f.est, [r], rest);
        assert [r][..0] == [];
        assert StateEstimator.RunFrom(f.est, [r]) == StateEstimator.OnImu(StateEstimator.RunFrom(f.est, [r][..0]), r);
      } else {
        assert Readings(outs) == [] + rest == rest;
      }
    }
  }

  // ---------------------------------------------------------------- the messages made

  /** An IMU packet leads to one IMU message followed by one state message with the packet's time. */
  predicate ImuThenState(events: seq<Event>, timestamp: seq<byte>) {
    && |events| == 2 && events[0].Imu?
    && events[1].StateMessage? && events[1].id == "VSTE" && events[1].timestamp == timestamp
  }

  lemma ReactEvents(f: Flight, o: Output)
    requires Deliverable(o)
    ensures o.Seqe? ==> React(f, o).events == []
    ensures o.Deliver? && o.source == Adis ==>
              && ImuThenState(React(f, o).events, o.timestamp)
              && React(f, o).events[0].sample == ArmSample(o.payload)
              && React(f, o).events[1].data == React(f, o).f.est.state
    ensures o.Raw? ==>
              React(f, o).events == [if o.source == Source.Arm then ArmDatagram(o.bytes) else TestDatagram(o.bytes)]
    ensures o.Deliver? && o.source == RnhUmbdet ==>
              |o.payload| == 1 && React(f, o).events == [Umbilical("RNHU", o.payload[0], o.timestamp)]
    ensures o.Deliver? && o.source != Adis && o.source != RnhUmbdet ==>
              forall e :: e in React(f, o).events ==> e.Gps?
  {
    hide Feed, StateReading, ArmSample, StateEstimator.OnImu;
  }

  // ---------------------------------------------------------------- the GPS messages

  /** The GPS byte stream, as the pieces its packets carried. */
  function CotsPayloads(outs: seq<Output>): seq<seq<byte>> {
    if outs == [] then []
    else (if outs[0].Deliver? && outs[0].source == GpsCots then [outs[0].payload] else []) + CotsPayloads(outs[1..])
  }

  lemma {:induction false} PayloadsConcat(a: seq<Output>, b: seq<Output>)
    ensures CotsPayloads(a + b) == CotsPayloads(a) + CotsPayloads(b)
  {
    if a == [] {
      assert a + b == b;
    } else {
      assert (a + b)[1..] == a[1..] + b;
      PayloadsConcat(a[1..], b);
    }
  }

  function GpsOnly(h: seq<Event>): seq<Event> {
    if h == [] then [] else GpsOnly(h[..|h| - 1]) + (if h[|h| - 1].Gps? then [h[|h| - 1]] else [])
  }

  lemma {:induction false} GpsOnlyConcat(a: seq<Event>, b: seq<Event>)
    ensures GpsOnly(a + b) == GpsOnly(a) + GpsOnly(b)
  {
    if b == [] {
      assert a + b == a;
    } else {
      assert (a + b)[..|a + b| - 1] == a + b[..|b| - 1];
      GpsOnlyConcat(a, b[..|b| - 1]);
    }
  }

  lemma {:induction false} GpsOnlyAll(h: seq<Event>)
    ensures (forall e :: e in h ==> e.Gps?) ==> GpsOnly(h) == h
    ensures (forall e :: e in h ==> !e.Gps?) ==> GpsOnly(h) == []
  {
    if h != [] {
      GpsOnlyAll(h[..|h| - 1]);
      assert h == h[..|h| - 1] + [h[|h| - 1]];
    }
  }

  lemma ReactGps(f: Flight, o: Output)
    requires Deliverable(o)
    ensures var fed := if o.Deliver? && o.source == GpsCots then Feed(f.rest, o.payload) else Parsed([], f.rest);
            React(f, o).f.rest == fed.rest && GpsOnly(React(f, o).events) == GpsEvents(fed.out)
  {
    hide Feed, StateReading, ArmSample, StateEstimator.OnImu;
    GpsOnlyAll(React(f, o).events);
  }

  lemma {:induction false} ReactAllGps(f: Flight, outs: seq<Output>)
    requires AllDeliverable(outs)
    ensures var fed := FeedAll(f.rest, CotsPayloads(outs));
            ReactAll(f, outs).f.rest == fed.rest && GpsOnly(ReactAll(f, outs).events) == GpsEvents(fed.out)
    decreases |outs|
  {
    hide React, Feed, FeedAll, Deliverable, GpsOnly, GpsEvents;
    if outs == [] {
      NoGps(f.rest);
    } else {
      var first := React(f, outs[0]);
      var tail := ReactAll(first.f, outs[1..]);
      var fed := FeedAll(first.f.rest, CotsPayloads(outs[1..]));
      ReactGps(f, outs[0]);
      ReactAllGps(first.f, outs[1..]);
      GpsOnlyConcat(first.events, tail.events);
      if outs[0].Deliver? && outs[0].source == GpsCots {
        FeedAllCons(f.rest, outs[0].payload, CotsPayloads(outs[1..]));
        GpsEventsConcat(Feed(f.rest, outs[0].payload).out, fed.out);
      } else {
        GpsEventsConcat([], fed.out);
        assert [] + fed.out == fed.out;
        assert CotsPayloads(outs) == CotsPayloads(outs[1..]);
      }
    }
  }

  lemma NoGps(rest: seq<byte>)
    ensures FeedAll(rest, []) == Parsed([], rest) && GpsOnly([]) == GpsEvents([]) == []
  {
  }

  lemma GpsEventsConcat(a: seq<Packet>, b: seq<Packet>)
    ensures GpsEvents(a + b) == GpsEvents(a) + GpsEvents(b)
  {
    hide VenusId, FixByte;
  }

  lemma FeedAllCons(rest: seq<byte>, chunk: seq<byte>, chunks: seq<seq<byte>>)
    ensures var first := Feed(rest, chunk);
            var tail := FeedAll(first.rest, chunks);
            FeedAll(rest, [chunk] + chunks) == Parsed(first.out + tail.out, tail.rest)
  {
    hide Feed;
    assert ([chunk] + chunks)[1..] == chunks;
  }

  /** The k-th message is the latest one with ID byte A8. */
  ghost predicate LatestA8(ms: seq<Packet>, k: nat) {
    k < |ms| && ms[k].id == 0xA8 && forall j :: k < j < |ms| ==> ms[j].id != 0xA8
  }

  /** There is an A8 message, and the byte after the ID of the latest one is at least 2. */
  ghost predicate LatestFix(ms: seq<Packet>) {
    exists k: nat :: LatestA8(ms, k) && FixByte(ms[k]) >= Arm.VENUS_A8_FIX_MODE_3D
  }

  lemma {:induction false} FixOfMessages(ms: seq<Packet>)
    ensures GpsFix(GpsEvents(ms)) == LatestFix(ms)
  {
    hide VenusId, FixByte;
    if ms != [] {
      var n: nat := |ms| - 1;
      var front := ms[..n];
      assert GpsEvents(ms)[..n] == GpsEvents(front);
      FixOfMessages(front);
      VenusIdInjective(ms[n].id, 0xA8);
      if ms[n].id == 0xA8 {
        assert LatestA8(ms, n);
        assert forall k: nat :: LatestA8(ms, k) ==> k == n;
      } else {
        assert forall k: nat :: LatestA8(ms, k) <==> LatestA8(front, k);
      }
    }
  }

  lemma {:induction false} GpsFixOnly(h: seq<Event>)
    ensures GpsFix(h) == GpsFix(GpsOnly(h))
  {
    if h != [] {
      var front, last := h[..|h| - 1], h[|h| - 1];
      GpsFixOnly(front);
      if last.Gps? {
        assert GpsOnly(h)[..|GpsOnly(front)|] == GpsOnly(front);
      } else {
        assert GpsOnly(h) == GpsOnly(front);
      }
    }
  }

  /** The k-th of a stream's frames is the latest with ID byte A8, and the byte after its ID is at least 2. */
  ghost predicate FixFrame(s: seq<byte>, starts: seq<nat>, k: nat)
    requires forall i :: 0 <= i < |starts| ==> FrameAt(s, starts[i])
  {
    && k < |starts| && IdByte(s, starts[k]) == 0xA8 && NextByte(s, starts[k]) >= Arm.VENUS_A8_FIX_MODE_3D
    && forall j :: k < j < |starts| ==> IdByte(s, starts[j]) != 0xA8
  }

  function IdByte(s: seq<byte>, p: nat): byte
    requires FrameAt(s, p)
  {
    s[p + 4]
  }

  function NextByte(s: seq<byte>, p: nat): byte
    requires FrameAt(s, p)
  {
    s[p + 5]
  }

  /** In terms of the stream: the latest A8 frame of its reading has a byte of at least 2 after the ID. */
  lemma FixInStream(s: seq<byte>)
    ensures LatestFix(Parse(s).out) <==> exists k: nat :: FixFrame(s, ReadFrom(s, 0).starts, k)
  {
    hide FrameAt, Undecided, PacketAt, Parse, ReadFrom, FixByte, FixFrame;
    var r := ReadFrom(s, 0);
    ReadIsReading(s, 0);
    ParseIsTheReading(s, r.starts, r.stop);
    forall k: nat
      ensures LatestA8(PacketsAt(s, r.starts), k) && FixByte(PacketsAt(s, r.starts)[k]) >= Arm.VENUS_A8_FIX_MODE_3D
              <==> FixFrame(s, r.starts, k)
    {
      FixFrameMeans(s, r.starts, k);
    }
  }

  lemma FixFrameMeans(s: seq<byte>, starts: seq<nat>, k: nat)
    requires forall i :: 0 <= i < |starts| ==> FrameAt(s, starts[i])
    ensures var out := PacketsAt(s, starts);
            LatestA8(out, k) && FixByte(out[k]) >= Arm.VENUS_A8_FIX_MODE_3D <==> FixFrame(s, starts, k)
  {
    hide FrameAt, PacketAt, FixByte, PacketsAt, IdByte, NextByte;
    var out := PacketsAt(s, starts);
    forall i | 0 <= i < |starts|
      ensures out[i].id == IdByte(s, starts[i]) && FixByte(out[i]) == NextByte(s, starts[i])
    {
      FrameBytes(s, starts[i]);
    }
  }

  lemma FrameBytes(s: seq<byte>, p: nat)
    requires FrameAt(s, p)
    ensures PacketAt(s, p).id == IdByte(s, p) && FixByte(PacketAt(s, p)) == NextByte(s, p)
  {
    FixByteIsNextByte(s, p);
  }

  /** An A8 frame without a fix field sets the GPS lock: its checksum, equal to its ID, is read as the fix mode. */
  lemma BareA8Locks(h: seq<Event>)
    ensures var frame: seq<byte> := [SYNC_1, SYNC_2, 0, 1, 0xA8, 0xA8, CR, LF];
            && Parse(frame) == Parsed([Packet(0xA8, 0, [])], [])
            && GpsFix(h + GpsEvents(Parse(frame).out))
  {
    var frame: seq<byte> := [SYNC_1, SYNC_2, 0, 1, 0xA8, 0xA8, CR, LF];
    assert frame[4..5] == [0xA8];
    XorOfOne(0xA8);
    assert PacketLen(frame, 0) == 1;
    assert FrameAt(frame, 0) by {
      hide CheckXor;
    }
    ParseEnds(frame);
    VenusIdInjective(0xA8, 0xA8);
    var events := GpsEvents(Parse(frame).out);
    assert events == [Gps("V8A8", 0xA8)];
    assert (h + events)[|h|] == events[0];
  }

  // ---------------------------------------------------------------- the upright samples

  /** The accelerations arming sees for IMU payloads. */
  function ArmSamples(payloads: seq<seq<byte>>): (samples: seq<Arm.Sample>)
    requires forall p :: p in payloads ==> |p| == DataLength(Adis)
    ensures |samples| == |payloads| && forall i :: 0 <= i < |payloads| ==> samples[i] == ArmSample(payloads[i])
  {
    seq(|payloads|, i requires 0 <= i < |payloads| => ArmSample(payloads[i]))
  }

  lemma {:induction false} ImuPayloadSizes(outs: seq<Output>)
    requires AllDeliverable(outs)
    ensures forall p :: p in ImuPayloads(outs) ==> |p| == DataLength(Adis)
  {
    if outs != [] {
      assert outs[0] in outs;
      ImuPayloadSizes(outs[1..]);
    }
  }

  lemma {:induction false} ImuSamplesConcat(a: seq<Event>, b: seq<Event>)
    ensures ImuSamples(a + b) == ImuSamples(a) + ImuSamples(b)
  {
    if b == [] {
      assert a + b == a;
    } else {
      assert (a + b)[..|a + b| - 1] == a + b[..|b| - 1];
      ImuSamplesConcat(a, b[..|b| - 1]);
    }
  }

  lemma {:induction false} NoImuSamples(h: seq<Event>)
    requires forall e :: e in h ==> !e.Imu?
    ensures ImuSamples(h) == []
  {
    if h != [] {
      NoImuSamples(h[..|h| - 1]);
    }
  }

  lemma ReactImu(f: Flight, o: Output)
    requires Deliverable(o)
    ensures ImuSamples(React(f, o).events) ==
            if o.Deliver? && o.source == Adis then [ArmSample(o.payload)] else []
  {
    hide React, ArmSample;
    ReactEvents(f, o);
    var events := React(f, o).events;
    if o.Deliver? && o.source == Adis {
      assert events == [events[0]] + [events[1]];
      ImuSamplesConcat([events[0]], [events[1]]);
      NoImuSamples([events[1]]);
      assert [events[0]][..0] == [];
      assert ImuSamples([events[0]]) == [events[0].sample];
    } else {
      assert forall e :: e in events ==> !e.Imu?;
      NoImuSamples(events);
    }
  }

  lemma ArmSamplesCons(payload: seq<byte>, payloads: seq<seq<byte>>)
    requires |payload| == DataLength(Adis) && forall p :: p in payloads ==> |p| == DataLength(Adis)
    ensures ArmSamples([payload] + payloads) == [ArmSample(payload)] + ArmSamples(payloads)
  {
    hide ArmSample;
  }

  lemma {:induction false} ReactAllImu(f: Flight, outs: seq<Output>)
    requires AllDeliverable(outs)
    requires forall p :: p in ImuPayloads(outs) ==> |p| == DataLength(Adis)
    ensures ImuSamples(ReactAll(f, outs).events) == ArmSamples(ImuPayloads(outs))
    decreases |outs|
  {
    hide React, ArmSample, Deliverable, ImuSamples, ArmSamples;
    if outs == [] {
      NoImuSamples([]);
      assert ArmSamples([]) == [];
    } else {
      var first := React(f, outs[0]);
      ImuPayloadSizes(outs[1..]);
      ReactImu(f, outs[0]);
      ReactAllImu(first.f, outs[1..]);
      ImuSamplesConcat(first.events, ReactAll(first.f, outs[1..]).events);
      if outs[0].Deliver? && outs[0].source == Adis {
        ArmSamplesCons(outs[0].payload, ImuPayloads(outs[1..]));
      } else {
        assert ImuPayloads(outs) == ImuPayloads(outs[1..]);
        assert [] + ArmSamples(ImuPayloads(outs[1..])) == ArmSamples(ImuPayloads(outs[1..]));
      }
    }
  }

  // ---------------------------------------------------------------- the logger's preconditions

  predicate AllWithinLimit(logs: seq<LogCall>) {
    forall c :: c in logs ==> WithinLimit(c)
  }

  /** The log calls for messages of a parsed stream fit exactly when none is that of an empty packet. */
  lemma GpsLogsFit(timestamp: seq<byte>, ms: seq<Packet>)
    requires forall m :: m in ms ==> m == EMPTY_MESSAGE || Sendable(m)
    ensures AllWithinLimit(GpsLogs(timestamp, ms)) <==> EMPTY_MESSAGE !in ms
  {
    hide ToGround, VenusId, WithinLimit, Sendable;
    var logs := GpsLogs(timestamp, ms);
    forall i | 0 <= i < |ms|
      ensures WithinLimit(logs[i]) <==> ms[i] != EMPTY_MESSAGE
    {
      assert logs[i] == GpsLog(timestamp, ms[i]);
      GpsLogFits(timestamp, ms[i]);
    }
  }

  lemma GpsLogFits(timestamp: seq<byte>, m: Packet)
    requires m == EMPTY_MESSAGE || Sendable(m)
    ensures WithinLimit(GpsLog(timestamp, m)) <==> m != EMPTY_MESSAGE
  {
    VenusToGround(m.id);
  }

  lemma ReactLogsFit(f: Flight, o: Output)
    requires Deliverable(o)
    ensures AllWithinLimit(React(f, o).logs) <==> EMPTY_MESSAGE !in FeedAll(f.rest, CotsPayloads([o])).out
  {
    assert [o][1..] == [];
    if o.Deliver? && o.source == GpsCots {
      hide Parse, GpsLogs, AllWithinLimit;
      var s := if |f.rest| + |o.payload| >= BUFFER_SIZE then o.payload else f.rest + o.payload;
      assert Feed(f.rest, o.payload) == Parse(s);
      assert CotsPayloads([o]) == [o.payload] + [];
      FeedAllCons(f.rest, o.payload, []);
      ParsedMessages(s);
      GpsLogsFit(o.timestamp, Parse(s).out);
    } else {
      hide Feed, StateReading, ArmSample, StateEstimator.OnImu;
      assert CotsPayloads([o]) == [];
    }
  }

  lemma AllFitConcat(a: seq<LogCall>, b: seq<LogCall>)
    ensures AllWithinLimit(a + b) <==> AllWithinLimit(a) && AllWithinLimit(b)
  {
    hide WithinLimit;
    forall c | c in a || c in b
      ensures c in a + b
    {
    }
  }

  lemma {:induction false} ReactAllLogsFit(f: Flight, outs: seq<Output>)
    requires AllDeliverable(outs)
    ensures AllWithinLimit(ReactAll(f, outs).logs) <==> EMPTY_MESSAGE !in FeedAll(f.rest, CotsPayloads(outs)).out
    decreases |outs|
  {
    hide React, AllWithinLimit, Feed, Deliverable;
    if outs == [] {
      NothingLogged();
    } else {
      var o, tail := outs[0], outs[1..];
      var first := React(f, o);
      ReactLogsFit(f, o);
      ReactGps(f, o);
      ReactAllLogsFit(first.f, tail);
      AllFitConcat(first.logs, ReactAll(first.f, tail).logs);
      assert outs == [o] + tail;
      PayloadsConcat([o], tail);
      FeedAllConcat(f.rest, CotsPayloads([o]), CotsPayloads(tail));
      ReactAllGps(f, [o]);
      assert [o][1..] == [];
      assert ReactAll(f, [o]).f == first.f;
    }
  }

  lemma NothingLogged()
    ensures AllWithinLimit([])
  {
  }
}
