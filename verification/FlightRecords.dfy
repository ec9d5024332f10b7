/**
 * Which records of a flight go to the ground, by ID, and what the reports of sequence errors say: the logs of FlightLog
 * read by source.
 */
module FlightRecords {
  import opened Bytes
  import opened SequenceTracking
  import opened Routing
  import opened VenusFrames
  import opened LogFormat
  import opened FlightComputer
  import opened FlightLog
  import Commands
  import Ethmux
  import LogBatching

  // ---------------------------------------------------------------- what goes to the ground

  /** Every call goes to the ground according to its ID. */
  predicate FollowsId(logs: seq<LogCall>) {
    forall c :: c in logs ==> |c.id| == 4 && c.toNet == ToGround(c.id)
  }

  /** Of the IDs of sources and reports only "JGPS" stays on board, and of the Venus IDs all but "V8A8". */
  lemma GroundIds(src: Source, id: byte)
    requires Sequenced(src) && src != GpsCots
    ensures |SourceId(src)| == 4 && (ToGround(SourceId(src)) <==> src != Jgps)
    ensures |VenusId(id)| == 4 && (ToGround(VenusId(id)) <==> id == 0xA8)
    ensures ToGround("SEQE")
  {
    VenusToGround(id);
    assert SourceId(src)[0] != 'V' && "SEQE"[0] != 'V';
    assert SourceId(src)[..2][0] == SourceId(src)[0];
    assert "V8"[0] == 'V' && "SEQE"[..2][0] == 'S';
    assert src != Jgps ==> SourceId(src)[0] != 'J';
  }

  lemma ReactFollowsId(f: Flight, o: Output)
    requires Deliverable(o)
    ensures FollowsId(React(f, o).logs)
  {
    hide VenusId, ToGround, SourceId, Feed, StateReading, ArmSample;
    if o.Deliver? && o.source == GpsCots {
      forall c | c in React(f, o).logs
        ensures |c.id| == 4 && c.toNet == ToGround(c.id)
      {
        var i :| 0 <= i < |React(f, o).logs| && c == React(f, o).logs[i];
        VenusIds(Feed(f.rest, o.payload).out[i].id);
      }
    } else if o.Deliver? {
      GroundIds(o.source, 0);
      JgpsId();
    } else {
      GroundIds(Adis, 0);
    }
  }

  lemma {:induction false} ReactAllFollowsId(f: Flight, outs: seq<Output>)
    requires AllDeliverable(outs)
    ensures FollowsId(ReactAll(f, outs).logs)
    decreases |outs|
  {
    hide React, Deliverable, ToGround;
    if outs != [] {
      ReactFollowsId(f, outs[0]);
      ReactAllFollowsId(React(f, outs[0]).f, outs[1..]);
    }
  }

  /** If the calls with an ID all go to the ground, or none does, so do their records. */
  lemma {:induction false} NetWithId(es: seq<LogBatching.Entry>, id: seq<byte>, toNet: bool)
    requires forall e :: e in es && e.msg.id == id ==> e.toNet == toNet
    ensures WithId(LogBatching.NetMessages(es), id) == if toNet then WithId(LogBatching.Messages(es), id) else []
  {
    hide LogBatching.NetMessages, LogBatching.Messages, WithId;
    if es == [] {
      NoRecords();
      NothingOf(id);
    } else {
      var front, e := es[..|es| - 1], es[|es| - 1];
      assert es == front + [e] && e in es;
      NetWithId(front, id, toNet);
      LogBatching.Snoc(front, e);
      WithIdSnoc(LogBatching.Messages(front), e.msg, id);
      WithIdSnoc(LogBatching.NetMessages(front), e.msg, id);
      assert LogBatching.NetMessages(front) + [] == LogBatching.NetMessages(front);
    }
  }

  lemma NothingOf(id: seq<byte>)
    ensures WithId([], id) == []
  {
  }

  /** Of a run's records with an ID all go to the ground or none, as the ID says. */
  lemma RunOnGround(ds: seq<Datagram>, name: string)
    requires Defined(ds) && |name| == 4 && Commands.IsAscii(name)
    ensures WithId(LogBatching.NetMessages(RunRecords(ds)), IdBytes(name)) ==
            if ToGround(name) then WithId(LogBatching.Messages(RunRecords(ds)), IdBytes(name)) else []
  {
    hide WithinBuffers, NoEmptyPacket, ReactAll, WithId, Outputs, ToGround, Loggable;
    hide LogBatching.Messages, LogBatching.NetMessages;
    RunLoggable(ds);
    OutputsDeliverable(ds);
    ReactAllFollowsId(START, Outputs(ds));
    var logs, es := FlightRun(ds).logs, RunRecords(ds);
    forall e | e in es && e.msg.id == IdBytes(name)
      ensures e.toNet == ToGround(name)
    {
      var i :| 0 <= i < |es| && e == es[i];
      assert logs[i] in logs;
      LoggedCall(logs[i]);
      IdBytesInjective(logs[i].id, name);
    }
    NetWithId(es, IdBytes(name), ToGround(name));
  }

  lemma LoggedCall(c: LogCall)
    requires Loggable(c)
    ensures Commands.IsAscii(c.id) && Record(c).msg.id == IdBytes(c.id) && Record(c).toNet == c.toNet
  {
  }

  /**
   * The records on the ground with a source's ID are the packets delivered from its own datagrams, in order; of the
   * sources other than the GPS only JGPS has none.
   */
  lemma SourceOnGround(ds: seq<Datagram>, calls: seq<LogBatching.Event>, stamp: seq<byte>, src: Source)
    requires Defined(ds) && LogBatching.AllWritable(calls) && |stamp| == 6
    requires CallsForDatagrams(LogBatching.Logged(calls)) == RunRecords(ds)
    requires Sequenced(src) && src != GpsCots
    ensures var closed := LogBatching.Flush(LogBatching.Run(calls), stamp).closed;
            var outs := ReceiveAll(Only(ds, src), 0).outs;
            && LogBatching.Written(closed) && Commands.IsAscii(SourceId(src)) && AllDeliverable(outs)
            && var ground := GroundRecords(LogBatching.NetPackets(closed));
            && ground.Some?
            && WithId(ground.value, IdBytes(SourceId(src))) == if src == Jgps then [] else Deliveries(outs, src)
  {
    hide Defined, RunRecords, LogBatching.Run, LogBatching.Messages, LogBatching.NetMessages, FromDatagrams;
    hide WithId, Deliveries, AllDeliverable, WithinBuffers, CallsForDatagrams, GroundRecords, DecodeAll, ToGround;
    FlightIsLogged(ds, calls, stamp);
    SourceOfRun(ds, src);
    GroundIds(src, 0);
    RunOnGround(ds, SourceId(src));
    var closed := LogBatching.Flush(LogBatching.Run(calls), stamp).closed;
    WithIdFromDatagrams(GroundRecords(LogBatching.NetPackets(closed)).value, IdBytes(SourceId(src)));
  }

  /** And with a Venus ID: the data of the GPS messages with ID byte A8, and none of the others. */
  lemma GpsOnGround(ds: seq<Datagram>, calls: seq<LogBatching.Event>, stamp: seq<byte>, id: byte)
    requires Defined(ds) && LogBatching.AllWritable(calls) && |stamp| == 6
    requires CallsForDatagrams(LogBatching.Logged(calls)) == RunRecords(ds)
    ensures var closed := LogBatching.Flush(LogBatching.Run(calls), stamp).closed;
            && LogBatching.Written(closed) && Commands.IsAscii(VenusId(id))
            && var ground := GroundRecords(LogBatching.NetPackets(closed));
            && ground.Some?
            && Datas(WithId(ground.value, IdBytes(VenusId(id)))) ==
               if id == 0xA8 then DatasOf(GpsMessages(ds), id) else []
  {
    hide Defined, RunRecords, LogBatching.Run, LogBatching.Messages, LogBatching.NetMessages, FromDatagrams;
    hide WithId, CallsForDatagrams, GroundRecords, DecodeAll, ToGround, VenusId, GpsMessages, DatasOf;
    FlightIsLogged(ds, calls, stamp);
    VenusOfRun(ds, id);
    GroundIds(Adis, id);
    RunOnGround(ds, VenusId(id));
    var closed := LogBatching.Flush(LogBatching.Run(calls), stamp).closed;
    WithIdFromDatagrams(GroundRecords(LogBatching.NetPackets(closed)).value, IdBytes(VenusId(id)));
  }

  // ---------------------------------------------------------------- reports of sequence errors

  /** The reports among the outputs. */
  function Reports(outs: seq<Output>): seq<Output> {
    if outs == [] then [] else (if outs[0].Seqe? then [outs[0]] else []) + Reports(outs[1..])
  }

  /** A record that reads, most significant byte first: port, expected and received number. */
  predicate IsReport(m: Message, o: Output) {
    && o.Seqe? && m.id == IdBytes("SEQE") && m.timestamp == o.timestamp && |m.data| == 10
    && FromBigEndian(m.data[..2]) == PortNumber(o.source)
    && FromBigEndian(m.data[2..6]) == o.expected && FromBigEndian(m.data[6..]) == o.received
  }

  /** The port tells the source. */
  lemma PortsDiffer(a: Source, b: Source)
    ensures PortNumber(a) == PortNumber(b) <==> a == b
    ensures PortNumber(a) < TWO_16
  {
  }

  lemma ReportReads(src: Source, expected: nat, received: nat)
    requires expected < TWO_32 && received < TWO_32
    ensures var data := SequenceErrorData(src, expected, received);
            && FromBigEndian(data[..2]) == PortNumber(src)
            && FromBigEndian(data[2..6]) == expected && FromBigEndian(data[6..]) == received
  {
    hide BigEndian, FromBigEndian, PortNumber;
    var data := SequenceErrorData(src, expected, received);
    assert data[..2] == BigEndian(PortNumber(src), 2) && data[2..6] == BigEndian(expected, 4);
    assert data[6..] == BigEndian(received, 4);
    DecodeEncode(PortNumber(src), 2);
    DecodeEncode(expected, 4);
    DecodeEncode(received, 4);
    Widths();
    PortsDiffer(src, src);
  }

  predicate Numbers32(outs: seq<Output>) {
    forall o :: o in outs && o.Seqe? ==> o.expected < TWO_32 && o.received < TWO_32
  }

  predicate Nexts32(nexts: map<Source, nat>) {
    forall src :: src in nexts ==> nexts[src] < TWO_32
  }

  lemma DemuxNumbers(d: Datagram, nexts: map<Source, nat>)
    requires Tracks(nexts) && Nexts32(nexts)
    ensures Numbers32(Demux(d, nexts).outs) && Nexts32(Demux(d, nexts).nexts)
  {
    hide Number;
    if |d.bytes| >= 4 {
      NumberBelow(d.bytes);
    }
  }

  lemma {:induction false} NumbersOfRun(ds: seq<Datagram>)
    ensures Numbers32(Outputs(ds)) && Nexts32(Nexts(ds))
  {
    hide Outputs, Nexts, Demux;
    if ds == [] {
      NumbersAtStart();
    } else {
      var front, d := ds[..|ds| - 1], ds[|ds| - 1];
      assert ds == front + [d];
      NumbersOfRun(front);
      OneMore(front, d);
      DemuxNumbers(d, Nexts(front));
    }
  }

  lemma NumbersAtStart()
    ensures Numbers32(Outputs([])) && Nexts32(Nexts([]))
  {
  }

  /** The records are those of the reports, one for one. */
  predicate AreReports(ms: seq<Message>, reports: seq<Output>) {
    |ms| == |reports| && forall i :: 0 <= i < |ms| ==> IsReport(ms[i], reports[i])
  }

  lemma ReportOfOne(f: Flight, o: Output)
    requires Deliverable(o) && AllLoggable(React(f, o).logs) && Numbers32([o])
    ensures AreReports(WithId(LogBatching.Messages(Records(React(f, o).logs)), IdBytes("SEQE")), Reports([o]))
  {
    hide Loggable, LogBatching.Messages, WithId, SequenceErrorData, SourceId, VenusId, Feed, StateReading, ArmSample;
    hide FromBigEndian, PortNumber;
    var logs, id := React(f, o).logs, IdBytes("SEQE");
    var ms := LogBatching.Messages(Records(logs));
    RecordMessages(logs);
    assert [o][1..] == [] && Reports([]) == [];
    if o.Seqe? {
      assert o in [o] && logs[0] in logs;
      LoggedFields(logs[0]);
      ReportReads(o.source, o.expected, o.received);
      assert ms == [ms[0]] && ms[0].id == id;
      OneRecord(ms[0]);
    } else {
      forall m | m in ms
        ensures m.id != id
      {
        var i :| 0 <= i < |ms| && m == ms[i];
        assert logs[i] in logs;
        LoggedFields(logs[i]);
        OtherIds(f, o, i);
        IdBytesInjective(logs[i].id, "SEQE");
      }
      WithOtherIds(ms, id);
    }
  }

  lemma LoggedFields(c: LogCall)
    requires Loggable(c)
    ensures Commands.IsAscii(c.id)
    ensures var m := Record(c).msg; m.id == IdBytes(c.id) && m.timestamp == c.timestamp && m.data == c.data
  {
  }

  /** Only reports are logged as SEQE. */
  lemma OtherIds(f: Flight, o: Output, i: nat)
    requires Deliverable(o) && !o.Seqe? && i < |React(f, o).logs|
    ensures React(f, o).logs[i].id != "SEQE"
  {
    hide SourceId, VenusId, Feed, StateReading, ArmSample;
    if o.Deliver? && o.source == GpsCots {
      VenusIdStarts(Feed(f.rest, o.payload).out[i].id);
    } else if o.Deliver? {
      SourceIdsDiffer(o.source, o.source, 0);
      JgpsId();
    }
  }

  lemma {:induction false} ReportsOfAll(f: Flight, outs: seq<Output>)
    requires AllDeliverable(outs) && AllLoggable(ReactAll(f, outs).logs) && Numbers32(outs)
    ensures AreReports(WithId(LogBatching.Messages(Records(ReactAll(f, outs).logs)), IdBytes("SEQE")), Reports(outs))
    decreases |outs|
  {
    hide React, Deliverable, AllLoggable, WithId, LogBatching.Messages, Records, IsReport;
    var id := IdBytes("SEQE");
    if outs == [] {
      NoReports(f);
    } else {
      assert outs[0] in outs && [outs[0]][1..] == [];
      var first := React(f, outs[0]);
      var logs := ReactAll(first.f, outs[1..]).logs;
      LoggableParts(first.logs, logs);
      ReportOfOne(f, outs[0]);
      ReportsOfAll(first.f, outs[1..]);
      RecordsWithId(first.logs, logs, id);
      assert Reports([outs[0]]) + Reports(outs[1..]) == Reports(outs);
    }
  }

  lemma NoReports(f: Flight)
    ensures ReactAll(f, []).logs == [] && AllLoggable([]) && Reports([]) == []
    ensures WithId(LogBatching.Messages(Records([])), IdBytes("SEQE")) == []
  {
    NothingWithId(IdBytes("SEQE"));
  }

  lemma ReportsOfRun(ds: seq<Datagram>)
    requires Defined(ds)
    ensures AreReports(WithId(LogBatching.Messages(RunRecords(ds)), IdBytes("SEQE")), Reports(Outputs(ds)))
  {
    hide WithinBuffers, NoEmptyPacket, ReactAll, WithId, Outputs, LogBatching.Messages, AllLoggable, AreReports;
    RunLoggable(ds);
    OutputsDeliverable(ds);
    NumbersOfRun(ds);
    ReportsOfAll(START, Outputs(ds));
  }

  lemma ReportId()
    ensures FromDatagram(RawMessage(IdBytes("SEQE"), [0, 0, 0, 0, 0, 0], []))
  {
    hide IsOwn, FromDatagram;
    SequenceErrorId();
    OwnIdsDiffer("SEQE");
  }

  /**
   * The SEQE records of the file, and those on the ground, are the reports made in the run, in order: each reads as the
   * port of its source, the number expected and the number received.
   */
  lemma ReportsAreLogged(ds: seq<Datagram>, calls: seq<LogBatching.Event>, stamp: seq<byte>)
    requires Defined(ds) && LogBatching.AllWritable(calls) && |stamp| == 6
    requires CallsForDatagrams(LogBatching.Logged(calls)) == RunRecords(ds)
    ensures var closed := LogBatching.Flush(LogBatching.Run(calls), stamp).closed;
            && LogBatching.Written(closed)
            && var disk := DecodeAll(LogBatching.DiskStream(closed));
            && var ground := GroundRecords(LogBatching.NetPackets(closed));
            && disk.Some? && AreReports(WithId(disk.value, IdBytes("SEQE")), Reports(Outputs(ds)))
            && ground.Some? && AreReports(WithId(ground.value, IdBytes("SEQE")), Reports(Outputs(ds)))
  {
    hide Defined, RunRecords, LogBatching.Run, LogBatching.Messages, LogBatching.NetMessages, FromDatagrams;
    hide WithId, CallsForDatagrams, GroundRecords, DecodeAll, ToGround, AreReports, Outputs;
    FlightIsLogged(ds, calls, stamp);
    ReportsOfRun(ds);
    ReportId();
    GroundIds(Adis, 0);
    RunOnGround(ds, "SEQE");
    var closed := LogBatching.Flush(LogBatching.Run(calls), stamp).closed;
    WithIdFromDatagrams(GroundRecords(LogBatching.NetPackets(closed)).value, IdBytes("SEQE"));
    WithIdFromDatagrams(DecodeAll(LogBatching.DiskStream(closed)).value, IdBytes("SEQE"));
  }
}
