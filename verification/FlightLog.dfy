/** What the log holds after a flight: the records of FlightComputer's runs, batched and written by LogBatching. */
module FlightLog {
  import opened Bytes
  import opened SequenceTracking
  import opened VenusFrames
  import opened VenusGuarantees
  import opened Routing
  import opened LogFormat
  import opened FlightComputer
  import Commands
  import Ethmux
  import LogBatching

  /** The characters of an ID. */
  function IdBytes(id: string): (bs: seq<byte>)
    requires Commands.IsAscii(id)
    ensures |bs| == |id| && forall i :: 0 <= i < |id| ==> bs[i] == id[i] as int
  {
    seq<byte>(|id|, i requires 0 <= i < |id| => id[i] as int)
  }

  lemma IdBytesInjective(a: string, b: string)
    requires Commands.IsAscii(a) && Commands.IsAscii(b)
    ensures IdBytes(a) == IdBytes(b) <==> a == b
  {
    if IdBytes(a) == IdBytes(b) {
      forall i | 0 <= i < |a|
        ensures a[i] == b[i]
      {
        assert IdBytes(a)[i] == IdBytes(b)[i];
      }
    }
  }

  /** Records that do not come from datagrams: batch numbers, servo commands, arming signals and the hub's version. */
  predicate IsOwn(id: string) {
    id == "SEQN" || id == "ROLL" || id == "MESG" || id == "VERS"
  }

  predicate FromDatagram(m: Message) {
    m.id != IdBytes("SEQN") && m.id != IdBytes("ROLL") && m.id != IdBytes("MESG") && m.id != IdBytes("VERS")
  }

  /** A call whose length argument is that of its data, with the ID of a datagram's record. */
  predicate Loggable(c: LogCall) {
    && Commands.IsAscii(c.id) && |c.id| == 4 && !IsOwn(c.id)
    && |c.timestamp| == 6 && c.dataLength == |c.data| && WithinLimit(c)
  }

  function Record(c: LogCall): (e: LogBatching.Entry)
    requires Loggable(c)
    ensures LogBatching.Writable(e) && FromDatagram(e.msg)
  {
    IdBytesInjective(c.id, "SEQN");
    IdBytesInjective(c.id, "ROLL");
    IdBytesInjective(c.id, "MESG");
    IdBytesInjective(c.id, "VERS");
    LogBatching.Entry(RawMessage(IdBytes(c.id), c.timestamp, c.data), c.toNet)
  }

  lemma SourceIds(src: Source)
    requires Sequenced(src)
    ensures var id := SourceId(src); Commands.IsAscii(id) && |id| == 4 && !IsOwn(id)
  {
    assert SourceId(src)[3] != 'L' && (SourceId(src)[0] == 'M' ==> SourceId(src)[1] == 'P');
  }

  lemma VenusIds(id: byte)
    ensures Commands.IsAscii(VenusId(id)) && |VenusId(id)| == 4 && !IsOwn(VenusId(id))
  {
    assert VenusId(id)[1] == '8';
  }

  // ---------------------------------------------------------------- choosing records

  /** The records made for datagrams. */
  function FromDatagrams(ms: seq<Message>): seq<Message> {
    if ms == [] then []
    else FromDatagrams(ms[..|ms| - 1]) + (if FromDatagram(ms[|ms| - 1]) then [ms[|ms| - 1]] else [])
  }

  /** The calls made for datagrams. */
  function CallsForDatagrams(es: seq<LogBatching.Entry>): seq<LogBatching.Entry> {
    if es == [] then []
    else CallsForDatagrams(es[..|es| - 1]) + (if FromDatagram(es[|es| - 1].msg) then [es[|es| - 1]] else [])
  }

  lemma {:induction false} FromDatagramsConcat(a: seq<Message>, b: seq<Message>)
    ensures FromDatagrams(a + b) == FromDatagrams(a) + FromDatagrams(b)
  {
    hide FromDatagram;
    if b == [] {
      assert a + b == a;
    } else {
      assert (a + b)[..|a + b| - 1] == a + b[..|b| - 1];
      FromDatagramsConcat(a, b[..|b| - 1]);
    }
  }

  lemma FromDatagramsSnoc(ms: seq<Message>, m: Message)
    ensures FromDatagrams(ms + [m]) == if FromDatagram(m) then FromDatagrams(ms) + [m] else FromDatagrams(ms)
  {
    hide FromDatagram;
    assert (ms + [m])[..|ms|] == ms;
  }

  lemma CallsSnoc(es: seq<LogBatching.Entry>, e: LogBatching.Entry)
    ensures CallsForDatagrams(es + [e]) ==
            if FromDatagram(e.msg) then CallsForDatagrams(es) + [e] else CallsForDatagrams(es)
  {
    hide FromDatagram;
    assert (es + [e])[..|es|] == es;
  }

  lemma NoRecords()
    ensures LogBatching.Messages([]) == FromDatagrams([]) == [] && LogBatching.NetMessages([]) == []
    ensures CallsForDatagrams([]) == []
  {
  }

  lemma {:induction false} CallsAndRecords(es: seq<LogBatching.Entry>)
    ensures FromDatagrams(LogBatching.Messages(es)) == LogBatching.Messages(CallsForDatagrams(es))
  {
    hide FromDatagram, LogBatching.Messages, FromDatagrams, CallsForDatagrams;
    if es == [] {
      NoRecords();
    } else {
      var front, e := es[..|es| - 1], es[|es| - 1];
      CallsAndRecords(front);
      assert front + [e] == es;
      LogBatching.Snoc(front, e);
      LogBatching.Snoc(CallsForDatagrams(front), e);
      FromDatagramsSnoc(LogBatching.Messages(front), e.msg);
      CallsSnoc(front, e);
    }
  }

  lemma {:induction false} CallsAndNetRecords(es: seq<LogBatching.Entry>)
    ensures FromDatagrams(LogBatching.NetMessages(es)) == LogBatching.NetMessages(CallsForDatagrams(es))
  {
    hide FromDatagram, LogBatching.NetMessages, FromDatagrams, CallsForDatagrams;
    if es == [] {
      NoRecords();
    } else {
      var front, e := es[..|es| - 1], es[|es| - 1];
      var net, chosen := LogBatching.NetMessages(front), LogBatching.NetMessages(CallsForDatagrams(front));
      CallsAndNetRecords(front);
      assert front + [e] == es && net + [] == net && chosen + [] == chosen;
      LogBatching.Snoc(front, e);
      LogBatching.Snoc(CallsForDatagrams(front), e);
      FromDatagramsSnoc(net, e.msg);
      CallsSnoc(front, e);
    }
  }

  // ---------------------------------------------------------------- the file and the datagrams, read back

  lemma {:induction false} MessagesConcat(a: seq<LogBatching.Entry>, b: seq<LogBatching.Entry>)
    ensures LogBatching.Messages(a + b) == LogBatching.Messages(a) + LogBatching.Messages(b)
    ensures LogBatching.NetMessages(a + b) == LogBatching.NetMessages(a) + LogBatching.NetMessages(b)
  {
    if b == [] {
      assert a + b == a;
    } else {
      assert (a + b)[..|a + b| - 1] == a + b[..|b| - 1];
      MessagesConcat(a, b[..|b| - 1]);
    }
  }

  lemma LastBatch(closed: seq<LogBatching.Closed>)
    requires closed != []
    ensures var k := |closed| - 1;
            LogBatching.Flatten(LogBatching.Batches(closed)) ==
            LogBatching.Flatten(LogBatching.Batches(closed[..k])) + closed[k].batch
  {
    var k := |closed| - 1;
    assert LogBatching.Batches(closed) == LogBatching.Batches(closed[..k]) + [closed[k].batch];
    LogBatching.FlattenSnoc(LogBatching.Batches(closed[..k]), closed[k].batch);
  }

  /** Apart from the batch numbers, the file's records are those of the batches. */
  lemma {:induction false} DiskForDatagrams(closed: seq<LogBatching.Closed>)
    requires LogBatching.Written(closed)
    ensures FromDatagrams(LogBatching.DiskRecords(closed)) ==
            FromDatagrams(LogBatching.Messages(LogBatching.Flatten(LogBatching.Batches(closed))))
  {
    hide LogBatching.Messages, FromDatagrams, FromDatagram, LogBatching.Fits, LogBatching.Flatten, LogBatching.Batches;
    if closed == [] {
      NothingFlattened();
    } else {
      var k := |closed| - 1;
      var front, batch := closed[..k], closed[k].batch;
      var seqn := LogBatching.Seqn(k, closed[k].stamp);
      var flat := LogBatching.Flatten(LogBatching.Batches(front));
      DiskForDatagrams(front);
      LastBatch(closed);
      MessagesConcat(flat, batch);
      FromDatagramsConcat(LogBatching.Messages(flat), LogBatching.Messages(batch));
      FromDatagramsConcat(LogBatching.DiskRecords(front) + [seqn], LogBatching.Messages(batch));
      FromDatagramsSnoc(LogBatching.DiskRecords(front), seqn);
      NumberIsOwn(k, closed[k].stamp);
    }
  }

  lemma NothingFlattened()
    ensures LogBatching.Messages(LogBatching.Flatten(LogBatching.Batches([]))) == []
    ensures LogBatching.NetMessages(LogBatching.Flatten(LogBatching.Batches([]))) == []
  {
  }

  lemma NumberIsOwn(k: nat, stamp: seq<byte>)
    requires |stamp| == 6
    ensures !FromDatagram(LogBatching.Seqn(k, stamp))
  {
    assert IdBytes("SEQN") == ['S' as int, 'E' as int, 'Q' as int, 'N' as int];
  }

  /** The records of the log datagrams, after their numbers; None if one does not decode. */
  function GroundRecords(packets: seq<seq<byte>>): Option<seq<Message>> {
    if packets == [] then Some([])
    else
      var before, last := GroundRecords(packets[..|packets| - 1]), packets[|packets| - 1];
      if before == None || |last| < 4 || DecodeAll(last[4..]) == None then None
      else Some(before.value + DecodeAll(last[4..]).value)
  }

  lemma {:induction false} GroundReads(closed: seq<LogBatching.Closed>)
    requires LogBatching.Written(closed)
    ensures GroundRecords(LogBatching.NetPackets(closed)) ==
            Some(LogBatching.NetMessages(LogBatching.Flatten(LogBatching.Batches(closed))))
  {
    hide LogBatching.NetMessages, LogBatching.Fits, LogBatching.Flatten, LogBatching.Batches, DecodeAll, EncodeAll;
    if closed == [] {
      NothingFlattened();
    } else {
      var k := |closed| - 1;
      var front, batch := closed[..k], closed[k].batch;
      var flat := LogBatching.Flatten(LogBatching.Batches(front));
      GroundReads(front);
      LastBatch(closed);
      MessagesConcat(flat, batch);
      LogBatching.PacketReads(closed, k);
      assert LogBatching.NetPackets(closed)[..k] == LogBatching.NetPackets(front);
    }
  }

  // ---------------------------------------------------------------- a flight's records

  predicate AllLoggable(logs: seq<LogCall>) {
    forall c :: c in logs ==> Loggable(c)
  }

  function Records(logs: seq<LogCall>): (es: seq<LogBatching.Entry>)
    requires AllLoggable(logs)
    ensures |es| == |logs| && forall i :: 0 <= i < |logs| ==> es[i] == Record(logs[i])
  {
    seq(|logs|, i requires 0 <= i < |logs| => Record(logs[i]))
  }

  lemma ReactLoggable(f: Flight, o: Output)
    requires Deliverable(o) && AllWithinLimit(React(f, o).logs)
    ensures AllLoggable(React(f, o).logs)
  {
    hide WithinLimit, Commands.IsAscii, IsOwn;
    SequenceErrorId();
    if o.Deliver? && o.source == GpsCots {
      hide Parse;
      var s := if |f.rest| + |o.payload| >= BUFFER_SIZE then o.payload else f.rest + o.payload;
      assert Feed(f.rest, o.payload) == Parse(s);
      ParsedMessages(s);
      GpsLoggable(o.timestamp, Parse(s).out);
    } else {
      hide Feed, StateReading, ArmSample;
      if o.Deliver? {
        SourceIds(o.source);
      }
      forall c | c in React(f, o).logs
        ensures Loggable(c)
      {
        assert WithinLimit(c);
      }
    }
  }

  lemma SequenceErrorId()
    ensures Commands.IsAscii("SEQE") && !IsOwn("SEQE")
  {
  }

  lemma GpsLoggable(timestamp: seq<byte>, ms: seq<Packet>)
    requires |timestamp| == 6 && AllWithinLimit(GpsLogs(timestamp, ms))
    requires forall m :: m in ms ==> m == EMPTY_MESSAGE || Sendable(m)
    ensures AllLoggable(GpsLogs(timestamp, ms))
  {
    hide Commands.IsAscii, IsOwn, Sendable, AllWithinLimit, WithinLimit;
    GpsLogsFit(timestamp, ms);
    var logs := GpsLogs(timestamp, ms);
    forall i | 0 <= i < |ms|
      ensures Loggable(logs[i])
    {
      GpsLogFits(timestamp, ms[i]);
      VenusIds(ms[i].id);
      SendableLength(ms[i]);
    }
  }

  lemma SendableLength(m: Packet)
    requires Sendable(m)
    ensures m.dataLength == |m.payload|
  {
  }

  lemma {:induction false} ReactAllLoggable(f: Flight, outs: seq<Output>)
    requires AllDeliverable(outs) && AllWithinLimit(ReactAll(f, outs).logs)
    ensures AllLoggable(ReactAll(f, outs).logs)
    decreases |outs|
  {
    hide React, AllWithinLimit, Deliverable, Loggable;
    if outs != [] {
      var first := React(f, outs[0]);
      AllFitConcat(first.logs, ReactAll(first.f, outs[1..]).logs);
      ReactLoggable(f, outs[0]);
      ReactAllLoggable(first.f, outs[1..]);
    }
  }

  lemma RunLoggable(ds: seq<Datagram>)
    requires Defined(ds)
    ensures AllLoggable(FlightRun(ds).logs)
  {
    hide WithinBuffers, NoEmptyPacket, ReactAll, Outputs, AllWithinLimit, AllLoggable;
    LoggerPreconditionsExactly(ds);
    OutputsDeliverable(ds);
    ReactAllLoggable(START, Outputs(ds));
  }

  /** The log calls a run of datagrams makes, as the logger takes them. */
  function RunRecords(ds: seq<Datagram>): seq<LogBatching.Entry>
    requires Defined(ds)
  {
    RunLoggable(ds);
    Records(FlightRun(ds).logs)
  }

  /**
   * Whatever servo, arming and version records and timer flushes come between them, after the final flush the file and
   * the datagrams sent decode, and hold exactly the records of the datagrams received, with payload, in order; the
   * datagrams those that go to the ground.
   */
  lemma FlightIsLogged(ds: seq<Datagram>, calls: seq<LogBatching.Event>, stamp: seq<byte>)
    requires Defined(ds) && LogBatching.AllWritable(calls) && |stamp| == 6
    requires CallsForDatagrams(LogBatching.Logged(calls)) == RunRecords(ds)
    ensures var closed := LogBatching.Flush(LogBatching.Run(calls), stamp).closed;
            && LogBatching.Written(closed)
            && var disk := DecodeAll(LogBatching.DiskStream(closed));
            && var ground := GroundRecords(LogBatching.NetPackets(closed));
            && disk.Some? && FromDatagrams(disk.value) == LogBatching.Messages(RunRecords(ds))
            && ground.Some? && FromDatagrams(ground.value) == LogBatching.NetMessages(RunRecords(ds))
  {
    hide Defined, RunRecords, LogBatching.Run, LogBatching.Messages, LogBatching.NetMessages, FromDatagrams, DecodeAll;
    LogBatching.EndToEnd(calls, stamp);
    var closed := LogBatching.Flush(LogBatching.Run(calls), stamp).closed;
    DiskForDatagrams(closed);
    GroundReads(closed);
    CallsAndRecords(LogBatching.Logged(calls));
    CallsAndNetRecords(LogBatching.Logged(calls));
  }

  // ---------------------------------------------------------------- one source's records

  /** The records with a given ID. */
  function WithId(ms: seq<Message>, id: seq<byte>): seq<Message> {
    if ms == [] then []
    else WithId(ms[..|ms| - 1], id) + (if ms[|ms| - 1].id == id then [ms[|ms| - 1]] else [])
  }

  lemma {:induction false} WithIdConcat(a: seq<Message>, b: seq<Message>, id: seq<byte>)
    ensures WithId(a + b, id) == WithId(a, id) + WithId(b, id)
  {
    if b == [] {
      assert a + b == a;
    } else {
      assert (a + b)[..|a + b| - 1] == a + b[..|b| - 1];
      WithIdConcat(a, b[..|b| - 1], id);
    }
  }

  lemma {:induction false} WithOtherIds(ms: seq<Message>, id: seq<byte>)
    requires forall m :: m in ms ==> m.id != id
    ensures WithId(ms, id) == []
  {
    if ms != [] {
      assert ms[|ms| - 1] in ms;
      WithOtherIds(ms[..|ms| - 1], id);
    }
  }

  lemma {:induction false} WithIdFromDatagrams(ms: seq<Message>, id: seq<byte>)
    requires |id| == 4 && FromDatagram(RawMessage(id, [0, 0, 0, 0, 0, 0], []))
    ensures WithId(FromDatagrams(ms), id) == WithId(ms, id)
  {
    if ms != [] {
      var front, m := ms[..|ms| - 1], ms[|ms| - 1];
      WithIdFromDatagrams(front, id);
      WithIdConcat(FromDatagrams(front), if FromDatagram(m) then [m] else [], id);
    }
  }

  lemma {:induction false} RecordMessages(logs: seq<LogCall>)
    requires AllLoggable(logs)
    ensures |LogBatching.Messages(Records(logs))| == |logs|
    ensures forall i :: 0 <= i < |logs| ==> LogBatching.Messages(Records(logs))[i] == Record(logs[i]).msg
  {
    hide Record, Loggable;
    if logs != [] {
      var front := logs[..|logs| - 1];
      RecordMessages(front);
      assert Records(logs)[..|logs| - 1] == Records(front);
    }
  }

  /** The records of what is delivered from a source. */
  function Deliveries(outs: seq<Output>, src: Source): seq<Message>
    requires Sequenced(src) && AllDeliverable(outs)
  {
    if outs == [] then []
    else (if outs[0].source == src then Delivery(outs[0], src) else []) + Deliveries(outs[1..], src)
  }

  function Delivery(o: Output, src: Source): seq<Message>
    requires Sequenced(src) && Deliverable(o)
  {
    SourceIds(src);
    if o.Deliver? then [RawMessage(IdBytes(SourceId(src)), o.timestamp, o.payload)] else []
  }

  /** Source IDs differ from each other, from Venus IDs and from that of reports. */
  lemma SourceIdsDiffer(a: Source, b: Source, id: byte)
    requires Sequenced(a) && Sequenced(b) && a != GpsCots
    ensures SourceId(a) == SourceId(b) <==> a == b
    ensures SourceId(a) != VenusId(id) && SourceId(a) != "SEQE"
  {
    assert SourceId(a)[0] != 'V' && VenusId(id)[0] == 'V';
    assert SourceId(a)[0] != 'S';
    if a != b {
      assert SourceId(a)[0] != SourceId(b)[0] || SourceId(a)[1] != SourceId(b)[1] || SourceId(a)[3] != SourceId(b)[3];
    }
  }

  lemma ReactDelivery(f: Flight, o: Output, src: Source)
    requires Deliverable(o) && AllLoggable(React(f, o).logs) && Sequenced(src) && src != GpsCots
    ensures Commands.IsAscii(SourceId(src))
    ensures WithId(LogBatching.Messages(Records(React(f, o).logs)), IdBytes(SourceId(src))) ==
            if o.source == src then Delivery(o, src) else []
  {
    hide React, SourceId, VenusId, WithId, LogBatching.Messages, Loggable, Commands.IsAscii;
    var logs := React(f, o).logs;
    SourceIds(src);
    RecordMessages(logs);
    var id, ms := IdBytes(SourceId(src)), LogBatching.Messages(Records(logs));
    ReactIds(f, o, src);
    if o.Deliver? && o.source == src {
      OneDelivery(f, o);
      assert ms == [ms[0]];
      OneRecord(ms[0]);
    } else {
      forall m | m in ms
        ensures m.id != id
      {
        var i :| 0 <= i < |ms| && m == ms[i];
        assert logs[i] in logs;
        RecordId(logs[i]);
        IdBytesInjective(logs[i].id, SourceId(src));
      }
      WithOtherIds(ms, id);
    }
  }

  lemma RecordId(c: LogCall)
    requires Loggable(c)
    ensures Commands.IsAscii(c.id) && Record(c).msg.id == IdBytes(c.id)
  {
  }

  lemma OneRecord(m: Message)
    ensures WithId([m], m.id) == [m]
  {
    assert [m][..0] == [];
  }

  /** No other output is logged under the ID of a source other than the GPS. */
  lemma ReactIds(f: Flight, o: Output, src: Source)
    requires Deliverable(o) && Sequenced(src) && src != GpsCots
    ensures !(o.Deliver? && o.source == src) ==> forall c :: c in React(f, o).logs ==> c.id != SourceId(src)
  {
    hide SourceId, VenusId, Feed, StateReading, ArmSample;
    if o.Deliver? && o.source == GpsCots {
      forall c | c in React(f, o).logs
        ensures c.id != SourceId(src)
      {
        var i :| 0 <= i < |React(f, o).logs| && c == React(f, o).logs[i];
        SourceIdsDiffer(src, src, Feed(f.rest, o.payload).out[i].id);
      }
    } else if o.Deliver? {
      SourceIdsDiffer(src, o.source, 0);
      JgpsId();
    } else {
      SourceIdsDiffer(src, src, 0);
    }
  }

  lemma JgpsId()
    ensures SourceId(Jgps) == "JGPS" && SourceId(Adis) == "ADIS" && SourceId(RnhUmbdet) == "RNHU"
  {
  }

  lemma OneDelivery(f: Flight, o: Output)
    requires Deliverable(o) && o.Deliver? && o.source != GpsCots
    ensures var logs := React(f, o).logs;
            && |logs| == 1 && logs[0].id == SourceId(o.source)
            && logs[0].timestamp == o.timestamp && logs[0].data == o.payload
  {
    hide StateReading, ArmSample;
    JgpsId();
  }

  lemma {:induction false} ReactAllDeliveries(f: Flight, outs: seq<Output>, src: Source)
    requires AllDeliverable(outs) && AllLoggable(ReactAll(f, outs).logs) && Sequenced(src) && src != GpsCots
    ensures Commands.IsAscii(SourceId(src))
    ensures WithId(LogBatching.Messages(Records(ReactAll(f, outs).logs)), IdBytes(SourceId(src))) ==
            Deliveries(outs, src)
    decreases |outs|
  {
    hide React, Deliverable, AllLoggable, SourceId, WithId, Delivery, LogBatching.Messages, Records, Commands.IsAscii;
    SourceIds(src);
    var id := IdBytes(SourceId(src));
    if outs == [] {
      NothingWithId(id);
    } else {
      assert outs[0] in outs;
      var first := React(f, outs[0]);
      var logs := ReactAll(first.f, outs[1..]).logs;
      LoggableParts(first.logs, logs);
      ReactDelivery(f, outs[0], src);
      ReactAllDeliveries(first.f, outs[1..], src);
      RecordsWithId(first.logs, logs, id);
    }
  }

  lemma LoggableParts(a: seq<LogCall>, b: seq<LogCall>)
    requires AllLoggable(a + b)
    ensures AllLoggable(a) && AllLoggable(b)
  {
    hide Loggable;
    forall c | c in a || c in b
      ensures c in a + b
    {
    }
  }

  lemma RecordsWithId(a: seq<LogCall>, b: seq<LogCall>, id: seq<byte>)
    requires AllLoggable(a + b) && AllLoggable(a) && AllLoggable(b)
    ensures WithId(LogBatching.Messages(Records(a + b)), id) ==
            WithId(LogBatching.Messages(Records(a)), id) + WithId(LogBatching.Messages(Records(b)), id)
  {
    hide Loggable, Record, WithId, LogBatching.Messages;
    assert Records(a + b) == Records(a) + Records(b);
    MessagesConcat(Records(a), Records(b));
    WithIdConcat(LogBatching.Messages(Records(a)), LogBatching.Messages(Records(b)), id);
  }

  lemma NothingWithId(id: seq<byte>)
    ensures WithId(LogBatching.Messages(Records([])), id) == []
  {
  }

  /** Deliveries of a source are in its own outputs. */
  lemma {:induction false} DeliveriesOnly(outs: seq<Output>, src: Source)
    requires AllDeliverable(outs) && Sequenced(src)
    ensures AllDeliverable(OutputsOf(outs, src))
    ensures Deliveries(OutputsOf(outs, src), src) == Deliveries(outs, src)
  {
    hide Deliverable, Delivery;
    if outs != [] {
      assert outs[0] in outs;
      DeliveriesOnly(outs[1..], src);
      if outs[0].source == src {
        assert OutputsOf(outs, src)[1..] == OutputsOf(outs[1..], src);
      } else {
        assert [] + OutputsOf(outs[1..], src) == OutputsOf(outs[1..], src);
        assert [] + Deliveries(outs[1..], src) == Deliveries(outs[1..], src);
      }
    }
  }

  /**
   * The file's records with a source's ID are the packets SequenceTracking delivers from that source's own datagrams,
   * in order; if these are well sized and numbered consecutively from 0, every one of them.
   */
  lemma SourceIsLogged(ds: seq<Datagram>, calls: seq<LogBatching.Event>, stamp: seq<byte>, src: Source)
    requires Defined(ds) && LogBatching.AllWritable(calls) && |stamp| == 6
    requires CallsForDatagrams(LogBatching.Logged(calls)) == RunRecords(ds)
    requires Sequenced(src) && src != GpsCots
    ensures var closed, own := LogBatching.Flush(LogBatching.Run(calls), stamp).closed, Only(ds, src);
            && LogBatching.Written(closed) && Commands.IsAscii(SourceId(src))
            && var disk, outs := DecodeAll(LogBatching.DiskStream(closed)), ReceiveAll(own, 0).outs;
            && disk.Some? && AllDeliverable(outs)
            && WithId(disk.value, IdBytes(SourceId(src))) == Deliveries(outs, src)
            && (Consecutive(own, 0) ==> (forall d :: d in own ==> |d.bytes| >= 4) && outs == Payloads(own))
  {
    hide Defined, RunRecords, LogBatching.Run, LogBatching.Messages, FromDatagrams, DecodeAll, WithId, Deliveries;
    hide Consecutive, AllDeliverable, WithinBuffers, ReactAll, Outputs, CallsForDatagrams;
    FlightIsLogged(ds, calls, stamp);
    SourceOfRun(ds, src);
    var closed := LogBatching.Flush(LogBatching.Run(calls), stamp).closed;
    WithIdFromDatagrams(DecodeAll(LogBatching.DiskStream(closed)).value, IdBytes(SourceId(src)));
    SilenceMeansLossless(Only(ds, src), 0);
  }

  lemma SourceOfRun(ds: seq<Datagram>, src: Source)
    requires Defined(ds) && Sequenced(src) && src != GpsCots
    ensures Commands.IsAscii(SourceId(src)) && |SourceId(src)| == 4
    ensures var id := IdBytes(SourceId(src)); FromDatagram(RawMessage(id, [0, 0, 0, 0, 0, 0], []))
    ensures var outs := ReceiveAll(Only(ds, src), 0).outs;
            && AllDeliverable(outs)
            && WithId(LogBatching.Messages(RunRecords(ds)), IdBytes(SourceId(src))) == Deliveries(outs, src)
  {
    hide WithinBuffers, NoEmptyPacket, ReactAll, WithId, LogBatching.Messages, SourceId, Deliveries, DemuxAll;
    hide AllLoggable, AllDeliverable, Commands.IsAscii;
    SourceIds(src);
    OwnIdsDiffer(SourceId(src));
    RunLoggable(ds);
    OutputsDeliverable(ds);
    ReactAllDeliveries(START, Outputs(ds), src);
    DeliveriesOnly(Outputs(ds), src);
    NonInterference(ds, Ethmux.InitialNexts(), src);
    assert Ethmux.InitialNexts()[src] == 0;
  }

  lemma OwnIdsDiffer(id: string)
    requires Commands.IsAscii(id) && |id| == 4 && !IsOwn(id)
    ensures FromDatagram(RawMessage(IdBytes(id), [0, 0, 0, 0, 0, 0], []))
  {
    IdBytesInjective(id, "SEQN");
    IdBytesInjective(id, "ROLL");
    IdBytesInjective(id, "MESG");
    IdBytesInjective(id, "VERS");
  }

  lemma WithIdSnoc(ms: seq<Message>, m: Message, id: seq<byte>)
    ensures WithId(ms + [m], id) == if m.id == id then WithId(ms, id) + [m] else WithId(ms, id)
  {
    assert (ms + [m])[..|ms|] == ms;
  }

  /** The file's records with any ID but that of the batch numbers are those of the batches. */
  lemma {:induction false} DiskWithId(closed: seq<LogBatching.Closed>, id: seq<byte>)
    requires LogBatching.Written(closed) && id != IdBytes("SEQN")
    ensures WithId(LogBatching.DiskRecords(closed), id) ==
            WithId(LogBatching.Messages(LogBatching.Flatten(LogBatching.Batches(closed))), id)
  {
    hide LogBatching.Messages, WithId, LogBatching.Fits, LogBatching.Flatten, LogBatching.Batches;
    if closed == [] {
      NothingFlattened();
    } else {
      var k := |closed| - 1;
      var front, batch := closed[..k], closed[k].batch;
      var seqn := LogBatching.Seqn(k, closed[k].stamp);
      var flat := LogBatching.Flatten(LogBatching.Batches(front));
      DiskWithId(front, id);
      LastBatch(closed);
      MessagesConcat(flat, batch);
      WithIdConcat(LogBatching.Messages(flat), LogBatching.Messages(batch), id);
      WithIdConcat(LogBatching.DiskRecords(front) + [seqn], LogBatching.Messages(batch), id);
      WithIdSnoc(LogBatching.DiskRecords(front), seqn, id);
      assert seqn.id == IdBytes("SEQN");
    }
  }

  // ---------------------------------------------------------------- the GPS's records

  function Datas(ms: seq<Message>): (datas: seq<seq<byte>>)
    ensures |datas| == |ms| && forall i :: 0 <= i < |ms| ==> datas[i] == ms[i].data
  {
    seq(|ms|, i requires 0 <= i < |ms| => ms[i].data)
  }

  /** The data of the Venus messages with a given ID byte. */
  function DatasOf(ms: seq<Packet>, id: byte): seq<seq<byte>> {
    if ms == [] then []
    else DatasOf(ms[..|ms| - 1], id) + (if ms[|ms| - 1].id == id then [ms[|ms| - 1].payload] else [])
  }

  lemma {:induction false} DatasOfConcat(a: seq<Packet>, b: seq<Packet>, id: byte)
    ensures DatasOf(a + b, id) == DatasOf(a, id) + DatasOf(b, id)
  {
    if b == [] {
      assert a + b == a;
    } else {
      assert (a + b)[..|a + b| - 1] == a + b[..|b| - 1];
      DatasOfConcat(a, b[..|b| - 1], id);
    }
  }

  /** The data logged under a Venus ID. */
  function VenusDatas(logs: seq<LogCall>, id: byte): seq<seq<byte>>
    requires AllLoggable(logs)
  {
    VenusIds(id);
    Datas(WithId(LogBatching.Messages(Records(logs)), IdBytes(VenusId(id))))
  }

  lemma VenusDatasConcat(a: seq<LogCall>, b: seq<LogCall>, id: byte)
    requires AllLoggable(a + b) && AllLoggable(a) && AllLoggable(b)
    ensures VenusDatas(a + b, id) == VenusDatas(a, id) + VenusDatas(b, id)
  {
    hide AllLoggable, Records, WithId, LogBatching.Messages, VenusId, Commands.IsAscii;
    VenusIds(id);
    RecordsWithId(a, b, IdBytes(VenusId(id)));
  }

  lemma VenusDatasOfOne(c: LogCall, id: byte)
    requires Loggable(c)
    ensures AllLoggable([c]) && VenusDatas([c], id) == if c.id == VenusId(id) then [c.data] else []
  {
    hide Commands.IsAscii, VenusId, WithId, LogBatching.Messages, WithinLimit, IsOwn;
    VenusIds(id);
    assert AllLoggable([c]);
    RecordMessages([c]);
    IdBytesInjective(c.id, VenusId(id));
    var ms := LogBatching.Messages(Records([c]));
    assert ms == [ms[0]] && ms[0] == Record(c).msg;
    if c.id == VenusId(id) {
      OneRecord(ms[0]);
    } else {
      WithOtherIds(ms, IdBytes(VenusId(id)));
    }
  }

  lemma {:induction false} GpsDatas(timestamp: seq<byte>, ms: seq<Packet>, id: byte)
    requires AllLoggable(GpsLogs(timestamp, ms))
    ensures VenusDatas(GpsLogs(timestamp, ms), id) == DatasOf(ms, id)
  {
    hide Loggable, VenusDatas, VenusId, ToGround;
    if ms == [] {
      NoVenusDatas(id);
    } else {
      var front, m := ms[..|ms| - 1], ms[|ms| - 1];
      var c := GpsLog(timestamp, m);
      assert GpsLogs(timestamp, ms) == GpsLogs(timestamp, front) + [c];
      LoggableParts(GpsLogs(timestamp, front), [c]);
      assert c in [c];
      GpsDatas(timestamp, front, id);
      VenusDatasConcat(GpsLogs(timestamp, front), [c], id);
      VenusDatasOfOne(c, id);
      VenusIdInjective(m.id, id);
    }
  }

  lemma NoVenusDatas(id: byte)
    ensures VenusDatas([], id) == []
  {
    VenusIds(id);
    NothingWithId(IdBytes(VenusId(id)));
  }

  lemma ReactVenusDatas(f: Flight, o: Output, id: byte)
    requires Deliverable(o) && AllLoggable(React(f, o).logs)
    ensures VenusDatas(React(f, o).logs, id) == DatasOf(FeedAll(f.rest, CotsPayloads([o])).out, id)
  {
    hide Loggable, VenusDatas, VenusId, Feed, StateReading, ArmSample, SourceId, DatasOf;
    assert [o][1..] == [];
    if o.Deliver? && o.source == GpsCots {
      assert CotsPayloads([o]) == [o.payload] + [];
      FeedAllCons(f.rest, o.payload, []);
      var out := Feed(f.rest, o.payload).out;
      assert out + [] == out;
      GpsDatas(o.timestamp, out, id);
    } else {
      assert CotsPayloads([o]) == [];
      NoDatasOf(id);
      if React(f, o).logs == [] {
        NoVenusDatas(id);
      } else {
        var c := React(f, o).logs[0];
        assert React(f, o).logs == [c] && c in [c];
        VenusDatasOfOne(c, id);
        if o.Deliver? {
          JgpsId();
          SourceIdsDiffer(o.source, o.source, id);
        } else {
          VenusIdStarts(id);
        }
      }
    }
  }

  lemma VenusIdStarts(id: byte)
    ensures VenusId(id) != "SEQE"
  {
    assert VenusId(id)[0] == 'V';
  }

  lemma NoDatasOf(id: byte)
    ensures DatasOf([], id) == []
  {
  }

  lemma {:induction false} ReactAllVenusDatas(f: Flight, outs: seq<Output>, id: byte)
    requires AllDeliverable(outs) && AllLoggable(ReactAll(f, outs).logs)
    ensures VenusDatas(ReactAll(f, outs).logs, id) == DatasOf(FeedAll(f.rest, CotsPayloads(outs)).out, id)
    decreases |outs|
  {
    hide React, Deliverable, AllLoggable, VenusDatas, DatasOf, FeedAll, CotsPayloads;
    if outs == [] {
      NoVenusDatas(id);
      NoDatasOf(id);
      NothingFed(f.rest);
    } else {
      var o, tail := outs[0], outs[1..];
      assert o in outs && outs == [o] + tail;
      var first := React(f, o);
      var logs := ReactAll(first.f, tail).logs;
      LoggableParts(first.logs, logs);
      ReactVenusDatas(f, o, id);
      ReactAllVenusDatas(first.f, tail, id);
      VenusDatasConcat(first.logs, logs, id);
      PayloadsConcat([o], tail);
      FeedAllConcat(f.rest, CotsPayloads([o]), CotsPayloads(tail));
      FedRest(f, o);
      DatasOfConcat(FeedAll(f.rest, CotsPayloads([o])).out, FeedAll(first.f.rest, CotsPayloads(tail)).out, id);
    }
  }

  lemma NothingFed(rest: seq<byte>)
    ensures FeedAll(rest, CotsPayloads([])) == Parsed([], rest)
  {
  }

  lemma FedRest(f: Flight, o: Output)
    requires Deliverable(o)
    ensures FeedAll(f.rest, CotsPayloads([o])).rest == React(f, o).f.rest
  {
    hide React, Feed;
    ReactGps(f, o);
    assert [o][1..] == [];
    if o.Deliver? && o.source == GpsCots {
      assert CotsPayloads([o]) == [o.payload] + [];
      FeedAllCons(f.rest, o.payload, []);
    } else {
      assert CotsPayloads([o]) == [];
    }
  }

  /**
   * The file's records under a Venus ID hold the data of the GPS byte stream's messages with that ID byte, in order.
   */
  lemma GpsIsLogged(ds: seq<Datagram>, calls: seq<LogBatching.Event>, stamp: seq<byte>, id: byte)
    requires Defined(ds) && LogBatching.AllWritable(calls) && |stamp| == 6
    requires CallsForDatagrams(LogBatching.Logged(calls)) == RunRecords(ds)
    ensures var closed := LogBatching.Flush(LogBatching.Run(calls), stamp).closed;
            && LogBatching.Written(closed) && Commands.IsAscii(VenusId(id))
            && var disk := DecodeAll(LogBatching.DiskStream(closed));
            && disk.Some? && Datas(WithId(disk.value, IdBytes(VenusId(id)))) == DatasOf(GpsMessages(ds), id)
  {
    hide Defined, LogBatching.Run, FromDatagrams, DecodeAll, WithId, CallsForDatagrams;
    FlightIsLogged(ds, calls, stamp);
    VenusOfRun(ds, id);
    var closed := LogBatching.Flush(LogBatching.Run(calls), stamp).closed;
    WithIdFromDatagrams(DecodeAll(LogBatching.DiskStream(closed)).value, IdBytes(VenusId(id)));
  }

  lemma VenusOfRun(ds: seq<Datagram>, id: byte)
    requires Defined(ds)
    ensures Commands.IsAscii(VenusId(id))
    ensures FromDatagram(RawMessage(IdBytes(VenusId(id)), [0, 0, 0, 0, 0, 0], []))
    ensures Datas(WithId(LogBatching.Messages(RunRecords(ds)), IdBytes(VenusId(id)))) == DatasOf(GpsMessages(ds), id)
  {
    hide WithinBuffers, NoEmptyPacket, ReactAll, WithId, LogBatching.Messages, Outputs, AllLoggable, AllDeliverable;
    hide VenusId, Commands.IsAscii;
    VenusIds(id);
    OwnIdsDiffer(VenusId(id));
    RunLoggable(ds);
    OutputsDeliverable(ds);
    ReactAllVenusDatas(START, Outputs(ds), id);
  }
}
