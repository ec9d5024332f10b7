/** How src/logger.c groups messages into numbered batches, as a function of the calls made to it. */
module LogBatching {
  import opened Bytes
  import opened LogFormat

  const DISK_LIMIT := 65536
  /** P_LIMIT: link MTU less UDP and largest IPv4 header, less the sequence number. */
  const LINK_MTU := 1500
  const NET_HEADERS := 8 + 60
  const NET_LIMIT := LINK_MTU - NET_HEADERS - 4

  /** A logged message; toNet tells log_write from log_write_disk_only. */
  datatype Entry = Entry(msg: Message, toNet: bool)

  datatype Closed = Closed(stamp: seq<byte>, batch: seq<Entry>)

  /** The batches written so far, the k-th under number k mod 2^32, and the batch being filled. */
  datatype Log = Log(closed: seq<Closed>, open: seq<Entry>)

  /** A call: a message to log, or the flush timer; `stamp` is the time used if the call writes a batch. */
  datatype Event = Put(entry: Entry, stamp: seq<byte>) | Tick(stamp: seq<byte>)

  // ---------------------------------------------------------------- batches

  function DiskSize(b: seq<Entry>): nat {
    if b == [] then 0 else DiskSize(b[..|b| - 1]) + Size(b[|b| - 1].msg)
  }

  function NetSize(b: seq<Entry>): nat {
    if b == [] then 0 else NetSize(b[..|b| - 1]) + (if b[|b| - 1].toNet then Size(b[|b| - 1].msg) else 0)
  }

  function Messages(b: seq<Entry>): (ms: seq<Message>) {
    if b == [] then [] else Messages(b[..|b| - 1]) + [b[|b| - 1].msg]
  }

  /** The messages of a batch that also go to the network, in order. */
  function NetMessages(b: seq<Entry>): seq<Message> {
    if b == [] then []
    else NetMessages(b[..|b| - 1]) + (if b[|b| - 1].toNet then [b[|b| - 1].msg] else [])
  }

  predicate Fits(b: seq<Entry>) {
    DiskSize(b) <= DISK_LIMIT && NetSize(b) <= NET_LIMIT
  }

  /** What callers must respect: 65524 data bytes on disk, 1416 if the message also goes to the network. */
  predicate Writable(e: Entry) {
    Size(e.msg) <= if e.toNet then NET_LIMIT else DISK_LIMIT
  }

  // ---------------------------------------------------------------- calls

  function Flush(l: Log, stamp: seq<byte>): Log {
    if l.open == [] then l else Log(l.closed + [Closed(stamp, l.open)], [])
  }

  function Write(l: Log, e: Entry, stamp: seq<byte>): Log {
    var l' := if Fits(l.open + [e]) then l else Flush(l, stamp);
    Log(l'.closed, l'.open + [e])
  }

  function Step(l: Log, ev: Event): Log {
    if ev.Put? then Write(l, ev.entry, ev.stamp) else Flush(l, ev.stamp)
  }

  function Run(events: seq<Event>): Log {
    if events == [] then Log([], []) else Step(Run(events[..|events| - 1]), events[|events| - 1])
  }

  /** The messages a list of calls asks to log. */
  function Logged(events: seq<Event>): seq<Entry> {
    if events == [] then []
    else Logged(events[..|events| - 1]) + (if events[|events| - 1].Put? then [events[|events| - 1].entry] else [])
  }

  predicate AllWritable(events: seq<Event>) {
    forall i :: 0 <= i < |events| ==> |events[i].stamp| == 6 && (events[i].Put? ==> Writable(events[i].entry))
  }

  // ---------------------------------------------------------------- what is written out

  predicate Written(closed: seq<Closed>) {
    forall k :: 0 <= k < |closed| ==> |closed[k].stamp| == 6 && closed[k].batch != [] && Fits(closed[k].batch)
  }

  /** The batch number as a message, for the log file. */
  function Seqn(number: nat, stamp: seq<byte>): Message
    requires |stamp| == 6
  {
    RawMessage(['S' as int, 'E' as int, 'Q' as int, 'N' as int], stamp, BigEndian(number % TWO_32, 4))
  }

  /** The records of the log file: SEQN 0, batch 0, SEQN 1, batch 1, ... */
  function DiskRecords(closed: seq<Closed>): seq<Message>
    requires Written(closed)
  {
    if closed == [] then []
    else
      var k := |closed| - 1;
      DiskRecords(closed[..k]) + [Seqn(k, closed[k].stamp)] + Messages(closed[k].batch)
  }

  /** The bytes of the log file. */
  function DiskStream(closed: seq<Closed>): seq<byte>
    requires Written(closed)
  {
    if closed == [] then []
    else
      var k := |closed| - 1;
      DiskStream(closed[..k]) + Encode(Seqn(k, closed[k].stamp)) + EncodeAll(Messages(closed[k].batch))
  }

  /** The datagrams sent. */
  function NetPackets(closed: seq<Closed>): (ps: seq<seq<byte>>)
    ensures |ps| == |closed|
  {
    if closed == [] then []
    else
      var k := |closed| - 1;
      NetPackets(closed[..k]) + [BigEndian(k % TWO_32, 4) + EncodeAll(NetMessages(closed[k].batch))]
  }

  function Flatten(parts: seq<seq<Entry>>): seq<Entry> {
    if parts == [] then [] else Flatten(parts[..|parts| - 1]) + parts[|parts| - 1]
  }

  function Batches(closed: seq<Closed>): (bs: seq<seq<Entry>>)
    ensures |bs| == |closed| && forall k :: 0 <= k < |closed| ==> bs[k] == closed[k].batch
  {
    seq(|closed|, k requires 0 <= k < |closed| => closed[k].batch)
  }

  // ---------------------------------------------------------------- appending

  lemma Snoc(b: seq<Entry>, e: Entry)
    ensures DiskSize(b + [e]) == DiskSize(b) + Size(e.msg)
    ensures NetSize(b + [e]) == NetSize(b) + if e.toNet then Size(e.msg) else 0
    ensures Messages(b + [e]) == Messages(b) + [e.msg]
    ensures NetMessages(b + [e]) == NetMessages(b) + if e.toNet then [e.msg] else []
  {
    assert (b + [e])[..|b|] == b;
  }

  lemma {:induction false} EncodedSizes(b: seq<Entry>)
    ensures |EncodeAll(Messages(b))| == DiskSize(b) && |EncodeAll(NetMessages(b))| == NetSize(b)
    ensures NetSize(b) <= DiskSize(b)
    ensures DiskSize(b) == 0 <==> b == []
  {
    if b != [] {
      var k := |b| - 1;
      EncodedSizes(b[..k]);
      EncodeAllSnoc(Messages(b[..k]), b[k].msg);
      EncodeAllSnoc(NetMessages(b[..k]), b[k].msg);
      assert NetMessages(b[..k]) + [] == NetMessages(b[..k]);
    }
  }

  lemma FlattenSnoc(parts: seq<seq<Entry>>, part: seq<Entry>)
    ensures Flatten(parts + [part]) == Flatten(parts) + part
  {
    assert (parts + [part])[..|parts|] == parts;
  }

  lemma DiskSnoc(closed: seq<Closed>, c: Closed)
    requires Written(closed) && Written(closed + [c]) && |c.stamp| == 6
    ensures DiskStream(closed + [c]) ==
            DiskStream(closed) + Encode(Seqn(|closed|, c.stamp)) + EncodeAll(Messages(c.batch))
  {
    hide Encode, EncodeAll, Messages, Seqn;
    assert (closed + [c])[..|closed|] == closed;
  }

  lemma NetSnoc(closed: seq<Closed>, c: Closed)
    ensures NetPackets(closed + [c]) ==
            NetPackets(closed) + [BigEndian(|closed| % TWO_32, 4) + EncodeAll(NetMessages(c.batch))]
  {
    hide EncodeAll, NetMessages, BigEndian;
    assert (closed + [c])[..|closed|] == closed;
  }

  /** What writing a message adds to the encoded buffers. */
  lemma SnocBytes(b: seq<Entry>, e: Entry)
    ensures EncodeAll(Messages(b + [e])) == EncodeAll(Messages(b)) + Encode(e.msg)
    ensures EncodeAll(NetMessages(b + [e])) == EncodeAll(NetMessages(b)) + if e.toNet then Encode(e.msg) else []
  {
    Snoc(b, e);
    EncodeAllSnoc(Messages(b), e.msg);
    EncodeAllSnoc(NetMessages(b), e.msg);
    assert NetMessages(b) + [] == NetMessages(b);
    assert EncodeAll(NetMessages(b)) + [] == EncodeAll(NetMessages(b));
  }

  // ---------------------------------------------------------------- what every run keeps

  /** Both buffers hold what they are sized for, and no empty batch is ever written. */
  predicate Inv(l: Log) {
    Fits(l.open) && Written(l.closed)
  }

  /** Everything logged so far, in order. */
  function Entries(l: Log): seq<Entry> {
    Flatten(Batches(l.closed)) + l.open
  }

  lemma FlushKeeps(l: Log, stamp: seq<byte>)
    requires Inv(l) && |stamp| == 6
    ensures Inv(Flush(l, stamp)) && Entries(Flush(l, stamp)) == Entries(l)
    ensures Flush(l, stamp).open == []
  {
    if l.open != [] {
      var l' := Flush(l, stamp);
      assert Batches(l'.closed) == Batches(l.closed) + [l.open];
      FlattenSnoc(Batches(l.closed), l.open);
    }
  }

  lemma WriteKeeps(l: Log, e: Entry, stamp: seq<byte>)
    requires Inv(l) && |stamp| == 6 && Writable(e)
    ensures Inv(Write(l, e, stamp)) && Entries(Write(l, e, stamp)) == Entries(l) + [e]
    ensures var closed := Write(l, e, stamp).closed;
            closed == l.closed || closed == l.closed + [Closed(stamp, l.open)]
  {
    if !Fits(l.open + [e]) {
      FlushKeeps(l, stamp);
      Snoc([], e);
    }
  }

  /** Nothing is lost, duplicated or reordered, whatever mixture of calls and timer flushes occurs. */
  lemma {:induction false} Conservation(events: seq<Event>)
    requires AllWritable(events)
    ensures Inv(Run(events)) && Entries(Run(events)) == Logged(events)
  {
    if events != [] {
      var k := |events| - 1;
      Conservation(events[..k]);
      if events[k].Put? {
        WriteKeeps(Run(events[..k]), events[k].entry, events[k].stamp);
      } else {
        FlushKeeps(Run(events[..k]), events[k].stamp);
      }
    }
  }

  lemma RunSnoc(events: seq<Event>, ev: Event)
    requires AllWritable(events) && |ev.stamp| == 6 && (ev.Put? ==> Writable(ev.entry))
    ensures AllWritable(events + [ev])
    ensures Run(events + [ev]) == Step(Run(events), ev)
  {
    hide Step;
    assert (events + [ev])[..|events|] == events;
  }

  // ---------------------------------------------------------------- reading the output back

  lemma {:induction false} DiskDecodes(closed: seq<Closed>)
    requires Written(closed)
    ensures DiskStream(closed) == EncodeAll(DiskRecords(closed))
    ensures DecodeAll(DiskStream(closed)) == Some(DiskRecords(closed))
  {
    hide Encode, Messages, Seqn;
    if closed != [] {
      var k := |closed| - 1;
      var seqn := Seqn(k, closed[k].stamp);
      DiskDecodes(closed[..k]);
      EncodeAllSnoc(DiskRecords(closed[..k]), seqn);
      EncodeAllConcat(DiskRecords(closed[..k]) + [seqn], Messages(closed[k].batch));
    }
    DecodeEncodeAll(DiskRecords(closed));
  }

  lemma {:induction false} PacketContents(closed: seq<Closed>, k: nat)
    requires k < |closed|
    ensures NetPackets(closed)[k] == BigEndian(k % TWO_32, 4) + EncodeAll(NetMessages(closed[k].batch))
  {
    if k < |closed| - 1 {
      PacketContents(closed[..|closed| - 1], k);
    }
  }

  /** Where the k-th number stands in the file: after k numbers and the messages of the batches before. */
  function NumberAt(closed: seq<Closed>, k: nat): nat
    requires k <= |closed|
  {
    k + |Flatten(Batches(closed[..k]))|
  }

  /**
   * In the records of the file the k-th number is a record SEQN with the batch's stamp that holds k mod 2^32, as the
   * k-th datagram does, and the messages of batch k follow it.
   */
  predicate NumbersAgree(closed: seq<Closed>, disk: seq<Message>, packets: seq<seq<byte>>) {
    && |packets| == |closed| && |disk| == NumberAt(closed, |closed|)
    && forall k :: 0 <= k < |closed| ==>
         && BatchAt(disk, NumberAt(closed, k), k, closed[k])
         && |packets[k]| >= 4 && FromBigEndian(packets[k][..4]) == k % 0x1_0000_0000
  }

  /** The records from `at` on are a number and the batch's messages. */
  predicate BatchAt(disk: seq<Message>, at: nat, k: nat, c: Closed) {
    && at + |c.batch| < |disk| && IsNumber(disk[at], k, c.stamp)
    && forall i :: 0 <= i < |c.batch| ==> disk[at + 1 + i] == c.batch[i].msg
  }

  predicate IsNumber(m: Message, k: nat, stamp: seq<byte>) {
    && m.id == ['S' as int, 'E' as int, 'Q' as int, 'N' as int] && m.timestamp == stamp
    && |m.data| == 4 && FromBigEndian(m.data) == k % 0x1_0000_0000
  }

  lemma {:induction false} MessagesAt(b: seq<Entry>)
    ensures |Messages(b)| == |b| && forall i :: 0 <= i < |b| ==> Messages(b)[i] == b[i].msg
  {
    if b != [] {
      MessagesAt(b[..|b| - 1]);
    }
  }

  lemma SeqnIsNumber(k: nat, stamp: seq<byte>)
    requires |stamp| == 6
    ensures IsNumber(Seqn(k, stamp), k, stamp)
  {
    hide BigEndian, FromBigEndian;
    DecodeEncode(k % TWO_32, 4);
    Widths();
  }

  lemma LastFlattened(closed: seq<Closed>)
    requires closed != []
    ensures var k := |closed| - 1;
            |Flatten(Batches(closed))| == |Flatten(Batches(closed[..k]))| + |closed[k].batch|
  {
    var k := |closed| - 1;
    assert Batches(closed) == Batches(closed[..k]) + [closed[k].batch];
    FlattenSnoc(Batches(closed[..k]), closed[k].batch);
  }

  lemma BatchStays(disk: seq<Message>, more: seq<Message>, at: nat, k: nat, c: Closed)
    requires BatchAt(disk, at, k, c)
    ensures BatchAt(disk + more, at, k, c)
  {
    hide IsNumber;
  }

  lemma BatchAdded(disk: seq<Message>, k: nat, c: Closed)
    requires |c.stamp| == 6
    ensures var disk' := disk + [Seqn(k, c.stamp)] + Messages(c.batch);
            BatchAt(disk', |disk|, k, c) && |disk'| == |disk| + 1 + |c.batch|
  {
    hide IsNumber, Seqn, Messages;
    SeqnIsNumber(k, c.stamp);
    MessagesAt(c.batch);
  }

  lemma {:induction false} FileIsNumbered(closed: seq<Closed>, packets: seq<seq<byte>>)
    requires Written(closed) && |packets| == |closed|
    requires forall k :: 0 <= k < |closed| ==>
               |packets[k]| >= 4 && FromBigEndian(packets[k][..4]) == k % 0x1_0000_0000
    ensures NumbersAgree(closed, DiskRecords(closed), packets)
  {
    hide Flatten, Batches, Messages, Fits, BatchAt, FromBigEndian, Seqn;
    if closed == [] {
      NothingWritten();
    } else {
      var n := |closed| - 1;
      var front, before := closed[..n], DiskRecords(closed[..n]);
      FileIsNumbered(front, packets[..n]);
      LastFlattened(closed);
      BatchAdded(before, n, closed[n]);
      assert closed[..|closed|] == closed && front[..n] == front;
      var more := [Seqn(n, closed[n].stamp)] + Messages(closed[n].batch);
      assert DiskRecords(closed) == before + more;
      forall k | 0 <= k < n
        ensures BatchAt(before + more, NumberAt(closed, k), k, closed[k])
      {
        assert front[..k] == closed[..k];
        BatchStays(before, more, NumberAt(front, k), k, front[k]);
      }
    }
  }

  lemma NothingWritten()
    ensures Flatten(Batches([])) == [] && NumberAt([], 0) == 0
  {
  }

  /**
   * After the final flush: the log file decodes to SEQN 0, batch 0, SEQN 1, batch 1, ...; the batches concatenate to
   * the messages logged; and packet k carries the same number and exactly the networked messages of batch k, within the
   * MTU.
   */
  lemma EndToEnd(events: seq<Event>, stamp: seq<byte>)
    requires AllWritable(events) && |stamp| == 6
    ensures var closed := Flush(Run(events), stamp).closed;
            && Written(closed)
            && DecodeAll(DiskStream(closed)) == Some(DiskRecords(closed))
            && Flatten(Batches(closed)) == Logged(events)
            && NumbersAgree(closed, DiskRecords(closed), NetPackets(closed))
            && forall k :: 0 <= k < |closed| ==>
                 var packet := NetPackets(closed)[k];
                 && 4 <= |packet| && |packet| + NET_HEADERS <= LINK_MTU
                 && FromBigEndian(packet[..4]) == k % TWO_32
                 && DecodeAll(packet[4..]) == Some(NetMessages(closed[k].batch))
  {
    Conservation(events);
    FlushKeeps(Run(events), stamp);
    var closed := Flush(Run(events), stamp).closed;
    DiskDecodes(closed);
    forall k | 0 <= k < |closed|
      ensures var packet := NetPackets(closed)[k];
              && 4 <= |packet| && |packet| + NET_HEADERS <= LINK_MTU
              && FromBigEndian(packet[..4]) == k % TWO_32
              && DecodeAll(packet[4..]) == Some(NetMessages(closed[k].batch))
    {
      PacketReads(closed, k);
    }
    FileIsNumbered(closed, NetPackets(closed));
  }

  lemma PacketReads(closed: seq<Closed>, k: nat)
    requires Written(closed) && k < |closed|
    ensures var packet := NetPackets(closed)[k];
            && 4 <= |packet| && |packet| + NET_HEADERS <= LINK_MTU
            && FromBigEndian(packet[..4]) == k % TWO_32
            && DecodeAll(packet[4..]) == Some(NetMessages(closed[k].batch))
  {
    hide NetPackets, BigEndian, FromBigEndian, DecodeAll, EncodeAll, NetMessages, DiskSize, NetSize, Pow256;
    var packet := NetPackets(closed)[k];
    PacketContents(closed, k);
    EncodedSizes(closed[k].batch);
    assert packet[..4] == BigEndian(k % TWO_32, 4);
    assert packet[4..] == EncodeAll(NetMessages(closed[k].batch));
    DecodeEncode(k % TWO_32, 4);
    Widths();
    DecodeEncodeAll(NetMessages(closed[k].batch));
  }

  // ---------------------------------------------------------------- optimality

  /** A cut of the messages into consecutive groups that each fit both buffers. */
  predicate IsPacking(parts: seq<seq<Entry>>, es: seq<Entry>) {
    Flatten(parts) == es && forall i :: 0 <= i < |parts| ==> Fits(parts[i])
  }

  /** The numbers used up, counting that of the open batch. */
  function Used(l: Log): nat {
    |l.closed| + if l.open == [] then 0 else 1
  }

  /** A cut has a boundary after n messages. */
  predicate CutAt(parts: seq<seq<Entry>>, n: nat) {
    exists j :: 0 <= j <= |parts| && |Flatten(parts[..j])| == n
  }

  /** How many timer flushes write a batch. */
  function Flushes(events: seq<Event>): nat {
    if events == [] then 0
    else
      var front, last := events[..|events| - 1], events[|events| - 1];
      Flushes(front) + if last.Tick? && Run(front).open != [] then 1 else 0
  }

  /** How many timer flushes write a batch where a cut has no boundary. */
  function Missed(parts: seq<seq<Entry>>, events: seq<Event>): nat {
    if events == [] then 0
    else
      var front, last := events[..|events| - 1], events[|events| - 1];
      Missed(parts, front) + if last.Tick? && Run(front).open != [] && !CutAt(parts, |Logged(front)|) then 1 else 0
  }

  lemma {:induction false} MissedAtMost(parts: seq<seq<Entry>>, events: seq<Event>)
    ensures Missed(parts, events) <= Flushes(events)
  {
    hide Run, CutAt;
    if events != [] {
      MissedAtMost(parts, events[..|events| - 1]);
    }
  }

  /** Up to n messages, every boundary of the one cut is one of the other. */
  predicate Refines(finer: seq<seq<Entry>>, parts: seq<seq<Entry>>, n: nat) {
    forall m: nat :: m <= n && CutAt(parts, m) ==> CutAt(finer, m)
  }

  lemma {:induction false} RefinedMissesLess(finer: seq<seq<Entry>>, parts: seq<seq<Entry>>, events: seq<Event>)
    requires Refines(finer, parts, |Logged(events)|)
    ensures Missed(finer, events) <= Missed(parts, events)
  {
    hide Run, CutAt;
    if events != [] {
      RefinedMissesLess(finer, parts, events[..|events| - 1]);
    }
  }

  /** If no batch is open, a flush wrote the last one: a cut without a boundary there has missed it. */
  lemma {:induction false} MissedAtEnd(finer: seq<seq<Entry>>, parts: seq<seq<Entry>>, events: seq<Event>)
    requires Refines(finer, parts, |Logged(events)|) && Run(events).open == [] && Logged(events) != []
    requires CutAt(finer, |Logged(events)|) && !CutAt(parts, |Logged(events)|)
    ensures Missed(finer, events) < Missed(parts, events)
  {
    hide CutAt, Fits;
    var front := events[..|events| - 1];
    assert Logged(events) == Logged(front) + [] == Logged(front);
    if Run(front).open != [] {
      RefinedMissesLess(finer, parts, front);
    } else {
      MissedAtEnd(finer, parts, front);
    }
  }

  lemma {:induction false} FlattenGrows(parts: seq<seq<Entry>>, j: nat)
    requires j <= |parts|
    ensures |Flatten(parts[..j])| <= |Flatten(parts)|
  {
    if j < |parts| {
      FlattenGrows(parts[..|parts| - 1], j);
      assert parts[..|parts| - 1][..j] == parts[..j];
    } else {
      assert parts[..j] == parts;
    }
  }

  /** The boundaries of a cut before its last group. */
  lemma CutBefore(parts: seq<seq<Entry>>, m: nat)
    requires parts != []
    ensures var front := parts[..|parts| - 1];
            CutAt(parts, m) <==> CutAt(front, m) || m == |Flatten(parts)|
    ensures m > |Flatten(parts[..|parts| - 1])| ==> !CutAt(parts[..|parts| - 1], m)
  {
    hide Flatten;
    var front := parts[..|parts| - 1];
    if CutAt(parts, m) {
      var j :| 0 <= j <= |parts| && |Flatten(parts[..j])| == m;
      if j < |parts| {
        assert front[..j] == parts[..j];
      } else {
        assert parts[..j] == parts;
      }
    }
    if CutAt(front, m) {
      var j :| 0 <= j <= |front| && |Flatten(front[..j])| == m;
      assert parts[..j] == front[..j];
      FlattenGrows(front, j);
    }
    assert parts[..|parts|] == parts;
  }

  /** l has used fewer than n numbers, or n with no fuller an open batch than `last`. */
  predicate Ahead(l: Log, n: nat, last: seq<Entry>) {
    || Used(l) < n
    || (Used(l) == n && (l.open == [] || (DiskSize(l.open) <= DiskSize(last) && NetSize(l.open) <= NetSize(last))))
  }

  lemma WriteStaysAhead(l: Log, e: Entry, stamp: seq<byte>, n: nat, last: seq<Entry>)
    requires Fits(last + [e]) && (l.open != [] ==> Ahead(l, n, last)) && (l.open == [] ==> Used(l) < n)
    ensures Ahead(Write(l, e, stamp), n, last + [e])
  {
    Snoc(l.open, e);
    Snoc(last, e);
    Snoc([], e);
  }

  lemma PackingWithoutLast(parts: seq<seq<Entry>>, es: seq<Entry>, q: seq<Entry>, e: Entry)
    requires parts != [] && IsPacking(parts, es) && parts[|parts| - 1] == q + [e]
    ensures var front := parts[..|parts| - 1];
            es == (Flatten(front) + q) + [e] && IsPacking(front + [q], Flatten(front) + q)
  {
    FlattenSnoc(parts[..|parts| - 1], q);
    Snoc(q, e);
  }

  /** What a cut before the last message looks like: same boundaries, and one at its end. */
  lemma ShorterCut(parts: seq<seq<Entry>>, q: seq<Entry>, e: Entry)
    requires parts != [] && parts[|parts| - 1] == q + [e]
    ensures var front := parts[..|parts| - 1];
            var n := |Flatten(front)| + |q|;
            && |Flatten(parts)| == n + 1 && (q != [] ==> !CutAt(parts, n))
            && Refines(front, parts, n) && Refines(front + [q], parts, n) && CutAt(front + [q], n)
  {
    hide CutAt, Flatten;
    var front := parts[..|parts| - 1];
    var n := |Flatten(front)| + |q|;
    assert parts == front + [q + [e]];
    FlattenSnoc(front, q + [e]);
    FlattenSnoc(front, q);
    var finer := front + [q];
    assert finer[..|finer| - 1] == front;
    CutBefore(parts, n);
    CutBefore(finer, n);
    forall m: nat | m <= n && CutAt(parts, m)
      ensures CutAt(front, m) && CutAt(finer, m)
    {
      CutBefore(parts, m);
      CutBefore(finer, m);
    }
  }

  lemma EmptyLast(parts: seq<seq<Entry>>, n: nat)
    requires parts != [] && parts[|parts| - 1] == []
    ensures var front := parts[..|parts| - 1];
            Flatten(front) == Flatten(parts) && Refines(front, parts, n)
  {
    hide CutAt, Flatten;
    var front := parts[..|parts| - 1];
    assert parts == front + [[]];
    FlattenSnoc(front, []);
    assert Flatten(front) + [] == Flatten(front);
    forall m: nat | CutAt(parts, m)
      ensures CutAt(front, m)
    {
      CutBefore(parts, m);
      WholeCut(front);
    }
  }

  lemma WholeCut(parts: seq<seq<Entry>>)
    ensures CutAt(parts, |Flatten(parts)|)
  {
    assert parts[..|parts|] == parts;
  }

  function LastGroup(parts: seq<seq<Entry>>): seq<Entry> {
    if parts == [] then [] else parts[|parts| - 1]
  }

  /** At every point, greedy filling has used no more numbers than a cut has groups, not counting flushes it missed. */
  lemma {:induction false} GreedyStaysAhead(events: seq<Event>, parts: seq<seq<Entry>>)
    requires IsPacking(parts, Logged(events))
    ensures Ahead(Run(events), |parts| + Missed(parts, events), LastGroup(parts))
    decreases |events|, |parts|
  {
    hide Write, Fits, IsPacking, CutAt;
    var n := |events| - 1;
    if events == [] {
    } else if events[n].Tick? {
      assert Logged(events) == Logged(events[..n]) + [] == Logged(events[..n]);
      GreedyStaysAhead(events[..n], parts);
    } else {
      PutStaysAhead(events, parts);
    }
  }

  lemma {:induction false} PutStaysAhead(events: seq<Event>, parts: seq<seq<Entry>>)
    requires events != [] && events[|events| - 1].Put?
    requires IsPacking(parts, Logged(events))
    ensures Ahead(Run(events), |parts| + Missed(parts, events), LastGroup(parts))
    decreases |events|, |parts|, 0
  {
    hide Write, Fits, CutAt, Refines, Missed;
    assert |Logged(events)| > 0;
    var before, front, last := events[..|events| - 1], parts[..|parts| - 1], parts[|parts| - 1];
    if last == [] {
      EmptyLast(parts, |Logged(events)|);
      PutStaysAhead(events, front);
      RefinedMissesLess(front, parts, events);
    } else {
      var q, e := last[..|last| - 1], last[|last| - 1];
      assert last == q + [e];
      PackingWithoutLast(parts, Logged(events), q, e);
      LastLogged(events, Flatten(front) + q, e);
      ShorterCut(parts, q, e);
      BeforePut(events, parts);
      var finer := if q == [] then front else front + [q];
      GreedyStaysAhead(before, finer);
      RefinedMissesLess(finer, parts, before);
      if q != [] && Run(before).open == [] {
        MissedAtEnd(finer, parts, before);
      }
      WriteStaysAhead(Run(before), e, events[|before|].stamp, |parts| + Missed(parts, events), q);
    }
  }

  lemma BeforePut(events: seq<Event>, parts: seq<seq<Entry>>)
    requires events != [] && events[|events| - 1].Put?
    ensures Missed(parts, events) == Missed(parts, events[..|events| - 1])
  {
    hide CutAt, Run;
  }

  lemma LastLogged(events: seq<Event>, before: seq<Entry>, e: Entry)
    requires events != [] && events[|events| - 1].Put?
    requires Logged(events) == before + [e]
    ensures events[|events| - 1].entry == e && Logged(events[..|events| - 1]) == before
  {
    var n := |events| - 1;
    assert (before + [e])[..|before|] == before;
    assert Logged(events) == Logged(events[..n]) + [events[n].entry];
    assert Logged(events)[..|before|] == Logged(events[..n]);
  }

  /** The batches have a boundary wherever a flush writes one. */
  lemma {:induction false} NoneMissed(events: seq<Event>, closed: seq<Closed>)
    requires AllWritable(events) && Run(events).closed <= closed
    ensures Missed(Batches(closed), events) == 0
  {
    hide Fits;
    if events != [] {
      var front, last := events[..|events| - 1], events[|events| - 1];
      NoneMissed(front, closed);
      if last.Tick? && Run(front).open != [] {
        var j := |Run(events).closed|;
        Conservation(events);
        assert Batches(closed)[..j] == Batches(Run(events).closed);
        assert Logged(events) == Logged(front) + [] == Logged(front);
        assert Flatten(Batches(closed)[..j]) + [] == Logged(front);
      }
    }
  }

  /**
   * The batches are a cut of the messages into consecutive groups that fit both buffers, with a boundary wherever a
   * flush writes a batch. No cut into such groups with all these boundaries has fewer groups than the numbers used, and
   * one that lacks some of them has at most that many fewer.
   */
  lemma GreedyIsOptimal(events: seq<Event>, stamp: seq<byte>, parts: seq<seq<Entry>>)
    requires AllWritable(events) && |stamp| == 6
    requires IsPacking(parts, Logged(events))
    ensures var closed := Flush(Run(events), stamp).closed;
            && IsPacking(Batches(closed), Logged(events)) && Missed(Batches(closed), events) == 0
            && |closed| <= |parts| + Missed(parts, events)
            && Missed(parts, events) <= Flushes(events)
  {
    hide Run, Fits, AllWritable, Batches, DiskSize, NetSize, Missed, IsPacking, Flushes, Logged, LastGroup;
    BatchesPack(events, stamp);
    NoneMissed(events, Flush(Run(events), stamp).closed);
    GreedyStaysAhead(events, parts);
    MissedAtMost(parts, events);
  }

  lemma BatchesPack(events: seq<Event>, stamp: seq<byte>)
    requires AllWritable(events) && |stamp| == 6
    ensures var closed := Flush(Run(events), stamp).closed;
            IsPacking(Batches(closed), Logged(events)) && |closed| == Used(Run(events))
  {
    hide Run, Fits;
    Conservation(events);
    FlushKeeps(Run(events), stamp);
  }

  /** Without timer flushes no cut into consecutive fitting groups needs fewer numbers than are used. */
  lemma GreedyIsMinimal(events: seq<Event>, stamp: seq<byte>, parts: seq<seq<Entry>>)
    requires AllWritable(events) && |stamp| == 6 && (forall i :: 0 <= i < |events| ==> events[i].Put?)
    requires IsPacking(parts, Logged(events))
    ensures |Flush(Run(events), stamp).closed| <= |parts|
  {
    hide Run, IsPacking;
    NoTicks(events);
    GreedyIsOptimal(events, stamp, parts);
  }

  lemma {:induction false} NoTicks(events: seq<Event>)
    requires forall i :: 0 <= i < |events| ==> events[i].Put?
    ensures Flushes(events) == 0
  {
    hide Run;
    if events != [] {
      NoTicks(events[..|events| - 1]);
    }
  }
}
