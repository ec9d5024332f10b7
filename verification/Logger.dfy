/** The logger of src/logger.c: two fixed buffers filled in lockstep and written out together, refining LogBatching. */
module Logger {
  import opened Bytes
  import opened LogFormat
  import opened LogBatching

  /** Copies bytes into an array after the first `at`, which stay as they are. */
  method MemCpy(dst: array<byte>, at: nat, src: seq<byte>)
    requires at + |src| <= dst.Length
    modifies dst
    ensures dst[..at + |src|] == old(dst[..at]) + src
  {
    var i := 0;
    while i < |src|
      invariant i <= |src|
      invariant dst[..at + i] == old(dst[..at]) + src[..i]
    {
      dst[at + i] := src[i];
      i := i + 1;
    }
  }

  lemma EncodePieces(a: seq<byte>, m: Message)
    ensures a + m.id + m.timestamp + BigEndian(|m.data|, 2) + m.data == a + Encode(m)
  {
    hide BigEndian;
  }

  class Logger {
    const logBuffer: array<byte>
    var logBufferSize: nat
    const diskLogBuffer: array<byte>
    var diskLogBufferSize: nat
    var sequence: nat
    /** The bytes written to the log file. */
    var diskOut: seq<byte>
    /** The datagrams sent. */
    var netOut: seq<seq<byte>>
    /** The batches these came from, and the calls that made them. */
    ghost var log: Log
    ghost var calls: seq<Event>

    predicate Shape()
      reads this
    {
      && diskLogBuffer.Length == DISK_LIMIT && logBuffer.Length == NET_LIMIT
      && diskLogBufferSize <= diskLogBuffer.Length && logBufferSize <= logBuffer.Length
      && diskLogBuffer != logBuffer
    }

    function DiskBytes(): seq<byte>
      reads this, diskLogBuffer
      requires Shape()
    {
      diskLogBuffer[..diskLogBufferSize]
    }

    function NetBytes(): seq<byte>
      reads this, logBuffer
      requires Shape()
    {
      logBuffer[..logBufferSize]
    }

    /** The buffers hold the open batch, and what was written out is the closed ones. */
    ghost predicate Ready()
      reads this, diskLogBuffer, logBuffer
    {
      && Shape() && Inv(log)
      && DiskBytes() == EncodeAll(Messages(log.open)) && NetBytes() == EncodeAll(NetMessages(log.open))
      && sequence == |log.closed| % TWO_32
      && diskOut == DiskStream(log.closed) && netOut == NetPackets(log.closed)
    }

    /** What every sequence of calls keeps: the state is the one the pure model reaches on the calls made. */
    ghost predicate Valid()
      reads this, diskLogBuffer, logBuffer
    {
      Ready() && AllWritable(calls) && log == Run(calls)
    }

    constructor ()
      ensures Valid() && calls == [] && fresh(diskLogBuffer) && fresh(logBuffer)
    {
      diskLogBuffer := new byte[DISK_LIMIT](_ => 0);
      logBuffer := new byte[NET_LIMIT](_ => 0);
      sequence, logBufferSize, diskLogBufferSize := 0, 0, 0;
      diskOut, netOut := [], [];
      log := Log([], []);
      calls := [];
    }

    lemma BufferSizes()
      requires Ready()
      ensures diskLogBufferSize == DiskSize(log.open) && logBufferSize == NetSize(log.open)
      ensures logBufferSize <= diskLogBufferSize && (diskLogBufferSize == 0 <==> log.open == [])
    {
      hide EncodeAll, Messages, NetMessages, DiskSize, NetSize;
      EncodedSizes(log.open);
      assert |DiskBytes()| == diskLogBufferSize && |NetBytes()| == logBufferSize;
    }

    /** Writes both buffers out under the current number, if there is anything to write; `now` is the clock reading. */
    method FlushLog(now: seq<byte>)
      requires Ready() && |now| == 6
      modifies this
      ensures Ready() && calls == old(calls) && log == Flush(old(log), now)
    {
      BufferSizes();
      if diskLogBufferSize == 0 {
        return;
      }
      hide Encode, EncodeAll, Messages, NetMessages, DiskStream, NetPackets, Fits;
      WriteOut(now);
      assert DiskBytes() == EncodeAll([]) && NetBytes() == EncodeAll([]) by {
        EncodedSizes([]);
        assert Messages([]) == [] && NetMessages([]) == [];
      }
    }

    method WriteOut(now: seq<byte>)
      requires Ready() && |now| == 6 && log.open != []
      modifies this
      ensures Shape() && Inv(log) && log == Flush(old(log), now) && calls == old(calls)
      ensures diskLogBufferSize == logBufferSize == 0 && sequence == |log.closed| % TWO_32
      ensures diskOut == DiskStream(log.closed) && netOut == NetPackets(log.closed)
    {
      hide Encode, EncodeAll, Messages, NetMessages, DiskStream, NetPackets, BigEndian, Fits;
      FlushKeeps(log, now);
      var closed := Closed(now, log.open);
      DiskSnoc(log.closed, closed);
      NetSnoc(log.closed, closed);
      var swapped := BigEndian(sequence, 4);
      var header: Message := RawMessage(['S' as int, 'E' as int, 'Q' as int, 'N' as int], now, swapped);
      diskOut := diskOut + Encode(header) + DiskBytes();
      netOut := netOut + [swapped + NetBytes()];
      logBufferSize := 0;
      diskLogBufferSize := 0;
      sequence := (sequence + 1) % TWO_32;
      log := Flush(log, now);
    }

    method EnsureDiskLogSpace(len: nat, now: seq<byte>)
      requires Ready() && |now| == 6
      modifies this
      ensures Ready() && calls == old(calls)
      ensures log == if DiskSize(old(log).open) + len > DISK_LIMIT then Flush(old(log), now) else old(log)
    {
      BufferSizes();
      if diskLogBufferSize + len > diskLogBuffer.Length {
        FlushLog(now);
      }
    }

    /** At most one of the two checks flushes: after the first flush nothing is left for the second. */
    method EnsureNetLogSpace(len: nat, now: seq<byte>)
      requires Ready() && |now| == 6 && len <= NET_LIMIT
      modifies this
      ensures Ready() && calls == old(calls)
      ensures log == if DiskSize(old(log).open) + len > DISK_LIMIT || NetSize(old(log).open) + len > NET_LIMIT
                     then Flush(old(log), now) else old(log)
    {
      EnsureDiskLogSpace(len, now);
      BufferSizes();
      if logBufferSize + len > logBuffer.Length {
        FlushLog(now);
      }
    }

    /** Formats a message at the end of the disk buffer. */
    method AppendDisk(m: Message)
      requires Shape() && diskLogBufferSize + Size(m) <= diskLogBuffer.Length
      modifies diskLogBuffer, this`diskLogBufferSize
      ensures Shape() && DiskBytes() == old(DiskBytes()) + Encode(m)
    {
      hide BigEndian, Encode;
      var at := diskLogBufferSize;
      MemCpy(diskLogBuffer, at, m.id);
      MemCpy(diskLogBuffer, at + 4, m.timestamp);
      MemCpy(diskLogBuffer, at + 10, BigEndian(|m.data|, 2));
      MemCpy(diskLogBuffer, at + HEADER_SIZE, m.data);
      EncodePieces(old(DiskBytes()), m);
      diskLogBufferSize := at + Size(m);
    }

    /** The space check has no effect when called from LogWrite, which has made it already. */
    method DiskOnly(m: Message, now: seq<byte>)
      requires Ready() && |now| == 6 && Size(m) <= DISK_LIMIT
      modifies this, diskLogBuffer
      ensures Ready() && calls == old(calls) && log == Write(old(log), Entry(m, false), now)
      ensures DiskBytes() == EncodeAll(Messages(log.open[..|log.open| - 1])) + Encode(m)
    {
      hide Encode, EncodeAll, Messages, NetMessages, DiskStream, NetPackets, DiskSize, NetSize;
      ghost var e := Entry(m, false);
      WriteKeeps(log, e, now);
      Snoc(log.open, e);
      EnsureDiskLogSpace(Size(m), now);
      BufferSizes();
      ghost var open := log.open;
      Snoc(open, e);
      SnocBytes(open, e);
      AppendDisk(m);
      log := Log(log.closed, open + [e]);
      assert log.open[..|open|] == open;
    }

    /** Copies the message just put at diskStart in the disk buffer to the end of the network buffer. */
    method CopyToNet(diskStart: nat, m: Message)
      requires Shape() && diskStart + Size(m) == diskLogBufferSize && logBufferSize + Size(m) <= logBuffer.Length
      requires DiskBytes()[diskStart..] == Encode(m)
      modifies logBuffer, this`logBufferSize
      ensures Shape() && NetBytes() == old(NetBytes()) + Encode(m)
    {
      assert diskLogBuffer[diskStart..diskStart + Size(m)] == DiskBytes()[diskStart..];
      MemCpy(logBuffer, logBufferSize, diskLogBuffer[diskStart..diskStart + Size(m)]);
      logBufferSize := logBufferSize + Size(m);
    }

    method DiskAndNet(m: Message, now: seq<byte>)
      requires Ready() && |now| == 6 && Size(m) <= NET_LIMIT
      modifies this, diskLogBuffer, logBuffer
      ensures Ready() && calls == old(calls) && log == Write(old(log), Entry(m, true), now)
    {
      hide Encode, EncodeAll, Messages, NetMessages, DiskStream, NetPackets, DiskSize, NetSize;
      ghost var e, d := Entry(m, true), Entry(m, false);
      WriteKeeps(log, e, now);
      Snoc(log.open, e);
      EnsureNetLogSpace(Size(m), now);
      BufferSizes();
      var diskStart := diskLogBufferSize;
      ghost var open, closed := log.open, log.closed;
      Snoc(open, d);
      SnocBytes(open, d);
      SnocBytes(open, e);
      DiskOnly(m, now);
      assert log == Log(closed, open + [d]);
      assert (open + [d])[..|open|] == open;
      CopyToNet(diskStart, m);
      log := Log(closed, open + [e]);
    }

    // ---------------------------------------------------------------- the calls other modules make

    method LogWriteDiskOnly(id: seq<byte>, timestamp: seq<byte>, data: seq<byte>, now: seq<byte>)
      requires Valid() && |id| == 4 && |timestamp| == 6 && |now| == 6
      requires HEADER_SIZE + |data| <= DISK_LIMIT
      modifies this, diskLogBuffer
      ensures Valid() && calls == old(calls) + [Put(Entry(RawMessage(id, timestamp, data), false), now)]
    {
      hide EncodeAll, Messages, NetMessages, DiskStream, NetPackets, Inv, Write, Run;
      RunSnoc(calls, Put(Entry(RawMessage(id, timestamp, data), false), now));
      DiskOnly(RawMessage(id, timestamp, data), now);
      calls := calls + [Put(Entry(RawMessage(id, timestamp, data), false), now)];
    }

    method LogWrite(id: seq<byte>, timestamp: seq<byte>, data: seq<byte>, now: seq<byte>)
      requires Valid() && |id| == 4 && |timestamp| == 6 && |now| == 6
      requires HEADER_SIZE + |data| <= NET_LIMIT
      modifies this, diskLogBuffer, logBuffer
      ensures Valid() && calls == old(calls) + [Put(Entry(RawMessage(id, timestamp, data), true), now)]
    {
      hide EncodeAll, Messages, NetMessages, DiskStream, NetPackets, Inv, Write, Run;
      RunSnoc(calls, Put(Entry(RawMessage(id, timestamp, data), true), now));
      DiskAndNet(RawMessage(id, timestamp, data), now);
      calls := calls + [Put(Entry(RawMessage(id, timestamp, data), true), now)];
    }

    method LogTimeout(now: seq<byte>)
      requires Valid() && |now| == 6
      modifies this
      ensures Valid() && calls == old(calls) + [Tick(now)]
    {
      hide EncodeAll, Messages, NetMessages, DiskStream, NetPackets, Inv, Flush, Run;
      RunSnoc(calls, Tick(now));
      FlushLog(now);
      calls := calls + [Tick(now)];
    }

    lemma Outputs()
      requires Valid()
      ensures Written(log.closed) && diskOut == DiskStream(log.closed) && netOut == NetPackets(log.closed)
    {
    }

    /** After the last flush the files hold the whole log: see LogBatching.EndToEnd. */
    method LoggerFinal(now: seq<byte>)
      requires Valid() && |now| == 6
      modifies this
      ensures Valid() && log.open == []
      ensures DecodeAll(diskOut) == Some(DiskRecords(log.closed))
      ensures Flatten(Batches(log.closed)) == Logged(old(calls))
      ensures NumbersAgree(log.closed, DecodeAll(diskOut).value, netOut)
      ensures forall k :: 0 <= k < |netOut| ==>
                && 4 <= |netOut[k]| <= LINK_MTU - NET_HEADERS
                && FromBigEndian(netOut[k][..4]) == k % TWO_32
                && DecodeAll(netOut[k][4..]) == Some(NetMessages(log.closed[k].batch))
    {
      hide Flush, Run, DecodeAll, DiskStream, NetPackets, EncodeAll, DiskRecords;
      EndToEnd(calls, now);
      FlushKeeps(log, now);
      RunSnoc(calls, Tick(now));
      LogTimeout(now);
    }
  }
}
