/** Sequence numbers of the sensor datagrams (src/ethmux.c): what is reported, what is delivered, what is remembered. */
module SequenceTracking {
  import opened Bytes

  /** The senders demux tells apart by port; Arm and RcServoEnable datagrams carry no sequence number. */
  datatype Source =
    | Adis | Mpu | Mpl | Bmp | RnhBattery | RnhPort | RnhAlarm | RnhUmbdet | FcfHealth | Jgps | GpsCots
    | Arm | RcServoEnable | Unknown

  predicate Sequenced(src: Source) {
    src != Arm && src != RcServoEnable && src != Unknown
  }

  /** The data_length of a source's record: the size of its packet after the number, or 0 for any size. */
  function DataLength(src: Source): nat
    requires Sequenced(src)
  {
    match src
    case Adis => 24
    case Mpu => 0xFFFF
    case Mpl => 6
    case Bmp => 6
    case RnhBattery => 26
    case RnhPort => 16
    case RnhAlarm => 6
    case RnhUmbdet => 1
    case FcfHealth => 124
    case Jgps => 0
    case GpsCots => 0
  }

  const ETH_MTU := 1500

  /** A datagram as read from the socket. */
  datatype Datagram = Datagram(source: Source, timestamp: seq<byte>, bytes: seq<byte>)

  datatype Output =
    | Seqe(source: Source, timestamp: seq<byte>, expected: nat, received: nat)
    | Deliver(source: Source, timestamp: seq<byte>, payload: seq<byte>)
    | Raw(source: Source, timestamp: seq<byte>, bytes: seq<byte>)

  datatype Received = Received(outs: seq<Output>, next: nat)

  /** The packet has the length its source's record asks for. */
  predicate WellSized(d: Datagram): (b: bool)
    requires Sequenced(d.source)
    ensures b ==> |d.bytes| >= 4
  {
    if DataLength(d.source) != 0 then |d.bytes| == 4 + DataLength(d.source) else 4 <= |d.bytes| <= 0xFFFF - 4
  }

  function Number(bytes: seq<byte>): nat
    requires |bytes| >= 4
  {
    FromBigEndian(bytes[..4])
  }

  /** One datagram of a sequenced source that was waiting for number `next`. */
  function Receive(d: Datagram, next: nat): Received
    requires Sequenced(d.source)
  {
    if !WellSized(d) then
      Received([Seqe(d.source, d.timestamp, 0, 0)], next)
    else
      var n := Number(d.bytes);
      var report, delivery := Seqe(d.source, d.timestamp, next, n), Deliver(d.source, d.timestamp, d.bytes[4..]);
      Received(if n < next then [report] else if n > next then [report, delivery] else [delivery], (n + 1) % TWO_32)
  }

  function ReceiveAll(ds: seq<Datagram>, next: nat): Received
    requires forall d :: d in ds ==> Sequenced(d.source)
  {
    if ds == [] then Received([], next)
    else
      var first := Receive(ds[0], next);
      var rest := ReceiveAll(ds[1..], first.next);
      Received(first.outs + rest.outs, rest.next)
  }

  lemma NumberBelow(bytes: seq<byte>)
    requires |bytes| >= 4
    ensures Number(bytes) < TWO_32
  {
    EncodeDecode(bytes[..4]);
    Widths();
  }

  // ---------------------------------------------------------------- recovering the packets from the outputs

  datatype Outcome =
    | BadLength
    | Old(number: nat)
    | Gap(number: nat, payload: seq<byte>)
    | InOrder(number: nat, payload: seq<byte>)

  /** What happened to a packet, read off the packet. */
  function OutcomeOf(d: Datagram, next: nat): Outcome
    requires Sequenced(d.source)
  {
    if !WellSized(d) then BadLength
    else if Number(d.bytes) < next then Old(Number(d.bytes))
    else if Number(d.bytes) > next then Gap(Number(d.bytes), d.bytes[4..])
    else InOrder(Number(d.bytes), d.bytes[4..])
  }

  /** A packet of the right size sets the next expected number to its own plus one, even when it is old. */
  function ExpectedAfter(d: Datagram, next: nat): nat
    requires Sequenced(d.source)
  {
    if WellSized(d) then (Number(d.bytes) + 1) % TWO_32 else next
  }

  function Outcomes(ds: seq<Datagram>, next: nat): seq<Outcome>
    requires forall d :: d in ds ==> Sequenced(d.source)
  {
    if ds == [] then []
    else [OutcomeOf(ds[0], next)] + Outcomes(ds[1..], ExpectedAfter(ds[0], next))
  }

  /** What happened to each packet, read off the outputs. */
  function Recover(outs: seq<Output>, next: nat): seq<Outcome>
    decreases |outs|
  {
    if outs == [] then []
    else
      match outs[0]
      case Seqe(_, _, expected, received) =>
        if expected == received == 0 then [BadLength] + Recover(outs[1..], next)
        else if received < expected || |outs| < 2 || !outs[1].Deliver? then
          [Old(received)] + Recover(outs[1..], (received + 1) % TWO_32)
        else
          [Gap(received, outs[1].payload)] + Recover(outs[2..], (received + 1) % TWO_32)
      case Deliver(_, _, payload) =>
        [InOrder(next, payload)] + Recover(outs[1..], (next + 1) % TWO_32)
      case Raw(_, _, _) => Recover(outs[1..], next)
  }

  lemma RecoverSingle(o: Output, rest: seq<Output>, next: nat)
    ensures o.Seqe? && o.expected == o.received == 0 ==>
              Recover([o] + rest, next) == [BadLength] + Recover(rest, next)
    ensures o.Seqe? && o.received < o.expected ==>
              Recover([o] + rest, next) == [Old(o.received)] + Recover(rest, (o.received + 1) % TWO_32)
    ensures o.Deliver? ==>
              Recover([o] + rest, next) == [InOrder(next, o.payload)] + Recover(rest, (next + 1) % TWO_32)
  {
    assert ([o] + rest)[1..] == rest;
  }

  lemma RecoverPair(report: Output, delivery: Output, rest: seq<Output>, next: nat)
    requires report.Seqe? && report.received > report.expected && delivery.Deliver?
    ensures Recover([report, delivery] + rest, next) ==
            [Gap(report.received, delivery.payload)] + Recover(rest, (report.received + 1) % TWO_32)
  {
    assert ([report, delivery] + rest)[2..] == rest;
  }

  lemma RecoverFirst(d: Datagram, next: nat, rest: seq<Output>)
    requires Sequenced(d.source)
    ensures var first := Receive(d, next);
            Recover(first.outs + rest, next) == [OutcomeOf(d, next)] + Recover(rest, first.next)
  {
    hide Number, Recover;
    var outs := Receive(d, next).outs;
    if |outs| == 2 {
      RecoverPair(outs[0], outs[1], rest, next);
    } else {
      RecoverSingle(outs[0], rest, next);
    }
  }

  /**
   * From the first expected number and the ordered outputs of a source, the number and fate of every packet it sent can
   * be reconstructed, with the payloads of those delivered.
   */
  lemma {:induction false} TraceRecovery(ds: seq<Datagram>, next: nat)
    requires forall d :: d in ds ==> Sequenced(d.source)
    ensures Recover(ReceiveAll(ds, next).outs, next) == Outcomes(ds, next)
  {
    hide Recover;
    if ds == [] {
      RecoverNone(next);
    } else {
      var first := Receive(ds[0], next);
      TraceRecovery(ds[1..], first.next);
      RecoverFirst(ds[0], next, ReceiveAll(ds[1..], first.next).outs);
    }
  }

  lemma RecoverNone(next: nat)
    ensures Recover([], next) == []
  {
  }

  /** A report with both numbers zero is made for wrong-length packets and for no others. */
  lemma ZeroReport(d: Datagram, next: nat)
    requires Sequenced(d.source)
    ensures Seqe(d.source, d.timestamp, 0, 0) in Receive(d, next).outs <==> !WellSized(d)
  {
  }

  /** No MPU packet is ever delivered: its expected length exceeds what the receive buffer holds. */
  lemma MpuNeverDelivered(d: Datagram, next: nat)
    requires d.source == Mpu && |d.bytes| <= ETH_MTU
    ensures Receive(d, next) == Received([Seqe(Mpu, d.timestamp, 0, 0)], next)
  {
  }

  // ---------------------------------------------------------------- repeated deliveries

  /** The number packet i is held against: one more than the last well-sized packet before it, or the initial one. */
  function HeldAgainst(ds: seq<Datagram>, next: nat, i: nat): nat
    requires (forall d :: d in ds ==> Sequenced(d.source)) && i <= |ds|
  {
    if i == 0 then next
    else if WellSized(ds[i - 1]) then (Number(ds[i - 1].bytes) + 1) % TWO_32
    else HeldAgainst(ds, next, i - 1)
  }

  lemma {:induction false} HeldAgainstTail(ds: seq<Datagram>, next: nat, i: nat)
    requires (forall d :: d in ds ==> Sequenced(d.source)) && 0 < i <= |ds|
    ensures HeldAgainst(ds, next, i) == HeldAgainst(ds[1..], ExpectedAfter(ds[0], next), i - 1)
  {
    hide WellSized, Number;
    if i > 1 {
      HeldAgainstTail(ds, next, i - 1);
      assert ds[1..][i - 2] == ds[i - 1];
    }
  }

  lemma {:induction false} NextIsHeldAgainst(ds: seq<Datagram>, next: nat)
    requires forall d :: d in ds ==> Sequenced(d.source)
    ensures ReceiveAll(ds, next).next == HeldAgainst(ds, next, |ds|)
    decreases |ds|
  {
    hide WellSized, Number;
    if ds != [] {
      NextIsHeldAgainst(ds[1..], Receive(ds[0], next).next);
      HeldAgainstTail(ds, next, |ds|);
    }
  }

  lemma {:induction false} OutcomeAt(ds: seq<Datagram>, next: nat, i: nat)
    requires (forall d :: d in ds ==> Sequenced(d.source)) && i < |ds|
    ensures |Outcomes(ds, next)| == |ds| && Outcomes(ds, next)[i] == OutcomeOf(ds[i], HeldAgainst(ds, next, i))
    decreases |ds|
  {
    hide OutcomeOf, ExpectedAfter, WellSized, Number;
    if i > 0 {
      OutcomeAt(ds[1..], ExpectedAfter(ds[0], next), i - 1);
      HeldAgainstTail(ds, next, i);
    } else if |ds| > 1 {
      OutcomeAt(ds[1..], ExpectedAfter(ds[0], next), 0);
    }
  }

  /** Packet i is well sized and not numbered below the number it is held against. */
  predicate UpToDate(ds: seq<Datagram>, next: nat, i: nat): (b: bool)
    requires (forall d :: d in ds ==> Sequenced(d.source)) && i < |ds|
    ensures b ==> |ds[i].bytes| >= 4
  {
    WellSized(ds[i]) && Number(ds[i].bytes) >= HeldAgainst(ds, next, i)
  }

  /** The number a packet was delivered under, or -1. */
  function DeliveredNumber(o: Outcome): int {
    if o.Gap? || o.InOrder? then o.number else -1
  }

  /** A packet is delivered exactly when it is up to date, and then under its own number. */
  lemma DeliveredExactly(ds: seq<Datagram>, next: nat, i: nat)
    requires (forall d :: d in ds ==> Sequenced(d.source)) && i < |ds|
    ensures |Outcomes(ds, next)| == |ds|
    ensures DeliveredNumber(Outcomes(ds, next)[i]) == if UpToDate(ds, next, i) then Number(ds[i].bytes) else -1
  {
    hide Number, Outcomes, HeldAgainst;
    OutcomeAt(ds, next, i);
  }

  /** Some number is delivered twice. */
  predicate Redelivers(outcomes: seq<Outcome>) {
    exists i: nat, j: nat ::
      i < j < |outcomes| && DeliveredNumber(outcomes[i]) == DeliveredNumber(outcomes[j]) >= 0
  }

  /** Two up-to-date packets carry the same number. */
  predicate RepeatsUpToDate(ds: seq<Datagram>, next: nat)
    requires forall d :: d in ds ==> Sequenced(d.source)
  {
    exists i: nat, j: nat ::
      i < j < |ds| && UpToDate(ds, next, i) && UpToDate(ds, next, j) && Number(ds[i].bytes) == Number(ds[j].bytes)
  }

  /**
   * A number is delivered twice exactly when two well-sized packets carry it and neither is below what it is held
   * against.
   */
  lemma RedeliversExactly(ds: seq<Datagram>, next: nat)
    requires forall d :: d in ds ==> Sequenced(d.source)
    ensures Redelivers(Outcomes(ds, next)) <==> RepeatsUpToDate(ds, next)
  {
    hide UpToDate, Number, DeliveredNumber, Outcomes;
    var os := Outcomes(ds, next);
    SameLength(ds, next);
    forall i: nat | i < |ds|
      ensures DeliveredNumber(os[i]) == if UpToDate(ds, next, i) then Number(ds[i].bytes) else -1
    {
      DeliveredExactly(ds, next, i);
    }
    if Redelivers(os) {
      var i: nat, j: nat :| i < j < |os| && DeliveredNumber(os[i]) == DeliveredNumber(os[j]) >= 0;
      assert UpToDate(ds, next, i) && UpToDate(ds, next, j) && Number(ds[i].bytes) == Number(ds[j].bytes);
    }
    if RepeatsUpToDate(ds, next) {
      var i: nat, j: nat :| i < j < |ds| && UpToDate(ds, next, i) && UpToDate(ds, next, j)
                            && Number(ds[i].bytes) == Number(ds[j].bytes);
      assert DeliveredNumber(os[i]) == DeliveredNumber(os[j]) >= 0;
    }
  }

  lemma {:induction false} SameLength(ds: seq<Datagram>, next: nat)
    requires forall d :: d in ds ==> Sequenced(d.source)
    ensures |Outcomes(ds, next)| == |ds|
  {
    hide ExpectedAfter, OutcomeOf;
    if ds != [] {
      SameLength(ds[1..], ExpectedAfter(ds[0], next));
    }
  }

  /** Every well-sized packet is up to date and none carries the last number before wrap-around. */
  predicate Forward(ds: seq<Datagram>, next: nat)
    requires forall d :: d in ds ==> Sequenced(d.source)
  {
    forall i: nat :: i < |ds| && WellSized(ds[i]) ==> UpToDate(ds, next, i) && Number(ds[i].bytes) + 1 < TWO_32
  }

  lemma {:induction false} HeldAgainstGrows(ds: seq<Datagram>, next: nat, i: nat, j: nat)
    requires (forall d :: d in ds ==> Sequenced(d.source)) && Forward(ds, next)
    requires i < j <= |ds| && WellSized(ds[i])
    ensures HeldAgainst(ds, next, j) > Number(ds[i].bytes)
    decreases j
  {
    hide WellSized, Number;
    if i < j - 1 {
      HeldAgainstGrows(ds, next, i, j - 1);
      assert WellSized(ds[j - 1]) ==> UpToDate(ds, next, j - 1) && Number(ds[j - 1].bytes) + 1 < TWO_32;
    } else {
      assert UpToDate(ds, next, i) && Number(ds[i].bytes) + 1 < TWO_32;
    }
  }

  /** Then delivered numbers strictly increase, so none is repeated. */
  lemma ForwardDeliveriesIncrease(ds: seq<Datagram>, next: nat)
    requires (forall d :: d in ds ==> Sequenced(d.source)) && Forward(ds, next)
    ensures forall i: nat, j: nat :: i < j < |ds| && WellSized(ds[i]) && WellSized(ds[j]) ==>
              Number(ds[i].bytes) < Number(ds[j].bytes)
    ensures !Redelivers(Outcomes(ds, next))
  {
    hide WellSized, Number;
    forall i: nat, j: nat | i < j < |ds| && WellSized(ds[i]) && WellSized(ds[j])
      ensures Number(ds[i].bytes) < Number(ds[j].bytes)
    {
      HeldAgainstGrows(ds, next, i, j);
      assert UpToDate(ds, next, j);
    }
    RedeliversExactly(ds, next);
  }

  /** An old packet does let a number be delivered twice: 5, 4, 5 when 5 is expected. */
  lemma RedeliveryAfterOld(timestamp: seq<byte>) returns (ds: seq<Datagram>)
    ensures forall d :: d in ds ==> Sequenced(d.source)
    ensures Outcomes(ds, 5) == [InOrder(5, []), Old(4), InOrder(5, [])] && Redelivers(Outcomes(ds, 5))
  {
    hide OutcomeOf, ExpectedAfter;
    var five, four := Datagram(Jgps, timestamp, BigEndian(5, 4)), Datagram(Jgps, timestamp, BigEndian(4, 4));
    ds := [five, four, five];
    BareNumber(five, 5, 5);
    BareNumber(four, 4, 6);
    assert ds[1..] == [four, five] && ds[1..][1..] == [five] && ds[1..][1..][1..] == [];
    assert Outcomes([], 6) == [];
    assert Outcomes([five], 5) == [InOrder(5, [])] + Outcomes([five][1..], 6);
    assert Outcomes([four, five], 6) == [Old(4)] + Outcomes([four, five][1..], 5);
    var os := Outcomes(ds, 5);
    assert os == [InOrder(5, []), Old(4), InOrder(5, [])];
    assert DeliveredNumber(os[0]) == DeliveredNumber(os[2]) >= 0;
  }

  lemma BareNumber(d: Datagram, n: nat, next: nat)
    requires d.source == Jgps && n < TWO_32 - 1 && d.bytes == BigEndian(n, 4)
    ensures ExpectedAfter(d, next) == n + 1
    ensures n == next ==> OutcomeOf(d, next) == InOrder(n, [])
    ensures n < next ==> OutcomeOf(d, next) == Old(n)
  {
    NumberOfBare(d.bytes, n);
    hide Number, BigEndian;
  }

  lemma NumberOfBare(bytes: seq<byte>, n: nat)
    requires n < TWO_32 && bytes == BigEndian(n, 4)
    ensures Number(bytes) == n
  {
    hide BigEndian, FromBigEndian;
    DecodeEncode(n, 4);
    Widths();
    assert bytes[..4] == bytes;
  }

  // ---------------------------------------------------------------- accounting

  function WellSizedCount(ds: seq<Datagram>): nat
    requires forall d :: d in ds ==> Sequenced(d.source)
  {
    if ds == [] then 0
    else (if WellSized(ds[0]) then 1 else 0) + WellSizedCount(ds[1..])
  }

  /** Sum of (received - expected) over the reports. */
  function ReportedDrift(outs: seq<Output>): int {
    if outs == [] then 0
    else (if outs[0].Seqe? then outs[0].received - outs[0].expected else 0) + ReportedDrift(outs[1..])
  }

  lemma {:induction false} DriftConcat(a: seq<Output>, b: seq<Output>)
    ensures ReportedDrift(a + b) == ReportedDrift(a) + ReportedDrift(b)
  {
    if a == [] {
      assert a + b == b;
    } else {
      assert (a + b)[1..] == a[1..] + b;
      DriftConcat(a[1..], b);
    }
  }

  lemma ReceiveDrift(d: Datagram, next: nat) returns (wrap: nat)
    requires Sequenced(d.source) && next < TWO_32
    ensures var r := Receive(d, next);
            r.next < TWO_32 && r.next + TWO_32 * wrap == next + WellSizedCount([d]) + ReportedDrift(r.outs)
  {
    var outs := Receive(d, next).outs;
    wrap := 0;
    assert [d][1..] == [];
    assert WellSizedCount([d]) == if WellSized(d) then 1 else 0;
    DriftOfOne(outs[0]);
    if |outs| == 2 {
      assert outs == [outs[0]] + [outs[1]];
      DriftConcat([outs[0]], [outs[1]]);
      DriftOfOne(outs[1]);
    } else {
      assert outs == [outs[0]];
    }
    if WellSized(d) {
      NumberBelow(d.bytes);
      wrap := if Number(d.bytes) + 1 == TWO_32 then 1 else 0;
    }
  }

  lemma DriftOfOne(o: Output)
    ensures ReportedDrift([o]) == if o.Seqe? then o.received - o.expected else 0
  {
    assert [o][1..] == [];
  }

  /** The final expected number is the initial one plus the well-sized packets and the reported gaps, modulo 2^32. */
  lemma {:induction false} Accounting(ds: seq<Datagram>, next: nat) returns (wraps: nat)
    requires (forall d :: d in ds ==> Sequenced(d.source)) && next < TWO_32
    ensures var r := ReceiveAll(ds, next);
            r.next < TWO_32 && r.next + TWO_32 * wraps == next + WellSizedCount(ds) + ReportedDrift(r.outs)
  {
    hide Receive;
    wraps := 0;
    if ds != [] {
      var first := Receive(ds[0], next);
      var w := ReceiveDrift(ds[0], next);
      var ws := Accounting(ds[1..], first.next);
      DriftConcat(first.outs, ReceiveAll(ds[1..], first.next).outs);
      assert [ds[0]][1..] == [];
      wraps := w + ws;
    }
  }

  // ---------------------------------------------------------------- silence

  predicate Silent(outs: seq<Output>) {
    forall o :: o in outs ==> !o.Seqe?
  }

  lemma SilentConcat(a: seq<Output>, b: seq<Output>)
    ensures Silent(a + b) <==> Silent(a) && Silent(b)
  {
    forall o | o in a || o in b
      ensures o in a + b
    {
    }
  }

  predicate Consecutive(ds: seq<Datagram>, next: nat)
    requires forall d :: d in ds ==> Sequenced(d.source)
  {
    forall i :: 0 <= i < |ds| ==>
      WellSized(ds[i]) && Number(ds[i].bytes) == (next + i) % TWO_32
  }

  function Payloads(ds: seq<Datagram>): seq<Output>
    requires forall d :: d in ds ==> |d.bytes| >= 4
  {
    if ds == [] then [] else [Deliver(ds[0].source, ds[0].timestamp, ds[0].bytes[4..])] + Payloads(ds[1..])
  }

  lemma SilentOne(d: Datagram, next: nat)
    requires Sequenced(d.source) && next < TWO_32
    ensures Silent(Receive(d, next).outs) <==> WellSized(d) && Number(d.bytes) == next
    ensures Silent(Receive(d, next).outs) ==>
              |d.bytes| >= 4
              && Receive(d, next) == Received([Deliver(d.source, d.timestamp, d.bytes[4..])], (next + 1) % TWO_32)
  {
    assert Receive(d, next).outs[0] in Receive(d, next).outs;
  }

  /**
   * A source reports nothing exactly when its packets are well sized and numbered consecutively; then all are
   * delivered.
   */
  lemma {:induction false} SilenceMeansLossless(ds: seq<Datagram>, next: nat)
    requires (forall d :: d in ds ==> Sequenced(d.source)) && next < TWO_32
    ensures Silent(ReceiveAll(ds, next).outs) <==> Consecutive(ds, next)
    ensures Consecutive(ds, next) ==>
              (forall d :: d in ds ==> |d.bytes| >= 4) && ReceiveAll(ds, next).outs == Payloads(ds)
  {
    hide Receive, Silent, Consecutive, WellSized, Number;
    if ds == [] {
      NothingSilent(next);
    } else {
      var first := Receive(ds[0], next);
      SilentConcat(first.outs, ReceiveAll(ds[1..], first.next).outs);
      SilentOne(ds[0], next);
      ConsecutiveTail(ds, next);
      if Silent(first.outs) {
        SilenceMeansLossless(ds[1..], first.next);
      }
    }
  }

  lemma NothingSilent(next: nat)
    ensures Silent([]) && Consecutive([], next)
  {
  }

  lemma ConsecutiveTail(ds: seq<Datagram>, next: nat)
    requires (forall d :: d in ds ==> Sequenced(d.source)) && ds != [] && next < TWO_32
    ensures Consecutive(ds, next) <==>
            WellSized(ds[0]) && Number(ds[0].bytes) == next
            && Consecutive(ds[1..], (next + 1) % TWO_32)
  {
    hide Number;
    var rest, next' := ds[1..], (next + 1) % TWO_32;
    forall i | 0 <= i < |rest|
      ensures (next' + i) % TWO_32 == (next + (i + 1)) % TWO_32 && rest[i] == ds[i + 1]
    {
      ShiftedResidue(next, i);
    }
    assert Consecutive(ds, next) ==> Number(ds[0].bytes) == (next + 0) % TWO_32;
    if WellSized(ds[0]) && Number(ds[0].bytes) == next && Consecutive(rest, next') {
      forall i | 0 <= i < |ds|
        ensures WellSized(ds[i]) && Number(ds[i].bytes) == (next + i) % TWO_32
      {
        if i > 0 {
          assert rest[i - 1] == ds[i];
        }
      }
    }
  }

  lemma ShiftedResidue(next: nat, i: nat)
    ensures ((next + 1) % TWO_32 + i) % TWO_32 == (next + (i + 1)) % TWO_32
  {
  }

  // ---------------------------------------------------------------- all sources together

  predicate Tracks(nexts: map<Source, nat>) {
    forall src: Source :: Sequenced(src) ==> src in nexts
  }

  datatype Demuxed = Demuxed(outs: seq<Output>, nexts: map<Source, nat>)

  /** One datagram: numbered sources are checked, commands pass through, empty and unknown ones are ignored. */
  function Demux(d: Datagram, nexts: map<Source, nat>): (r: Demuxed)
    requires Tracks(nexts)
    ensures Tracks(r.nexts)
  {
    if d.bytes == [] || d.source == Unknown then Demuxed([], nexts)
    else if !Sequenced(d.source) then Demuxed([Raw(d.source, d.timestamp, d.bytes)], nexts)
    else
      var r := Receive(d, nexts[d.source]);
      Demuxed(r.outs, nexts[d.source := r.next])
  }

  function DemuxAll(ds: seq<Datagram>, nexts: map<Source, nat>): (r: Demuxed)
    requires Tracks(nexts)
    ensures Tracks(r.nexts)
  {
    if ds == [] then Demuxed([], nexts)
    else
      var first := Demux(ds[0], nexts);
      var rest := DemuxAll(ds[1..], first.nexts);
      Demuxed(first.outs + rest.outs, rest.nexts)
  }

  /** The datagrams of one source. */
  function Only(ds: seq<Datagram>, src: Source): (r: seq<Datagram>)
    ensures forall d :: d in r ==> d.source == src
  {
    if ds == [] then []
    else (if ds[0].source == src && ds[0].bytes != [] then [ds[0]] else []) + Only(ds[1..], src)
  }

  function OutputsOf(outs: seq<Output>, src: Source): seq<Output> {
    if outs == [] then [] else (if outs[0].source == src then [outs[0]] else []) + OutputsOf(outs[1..], src)
  }

  lemma {:induction false} OutputsConcat(a: seq<Output>, b: seq<Output>, src: Source)
    ensures OutputsOf(a + b, src) == OutputsOf(a, src) + OutputsOf(b, src)
  {
    if a == [] {
      assert a + b == b;
    } else {
      OutputsConcat(a[1..], b, src);
      assert (a + b)[0] == a[0] && (a + b)[1..] == a[1..] + b;
      var first := if a[0].source == src then [a[0]] else [];
      assert first + (OutputsOf(a[1..], src) + OutputsOf(b, src)) == first + OutputsOf(a[1..], src) + OutputsOf(b, src);
    }
  }

  lemma {:induction false} OutputsSameSource(outs: seq<Output>, x: Source, src: Source)
    requires forall o :: o in outs ==> o.source == x
    ensures OutputsOf(outs, src) == if x == src then outs else []
  {
    if outs != [] {
      OutputsSameSource(outs[1..], x, src);
    }
  }

  lemma OutputsOfOne(d: Datagram, nexts: map<Source, nat>, src: Source)
    requires Tracks(nexts)
    ensures var outs := Demux(d, nexts).outs;
            OutputsOf(outs, src) == if d.source == src then outs else []
  {
    hide Number, OutputsOf;
    OutputsSameSource(Demux(d, nexts).outs, d.source, src);
  }

  /** What one source's traffic produces is not changed by any other traffic. */
  lemma {:induction false} NonInterference(ds: seq<Datagram>, nexts: map<Source, nat>, src: Source)
    requires Tracks(nexts) && Sequenced(src)
    ensures var all := DemuxAll(ds, nexts);
            var alone := ReceiveAll(Only(ds, src), nexts[src]);
            OutputsOf(all.outs, src) == alone.outs && all.nexts[src] == alone.next
  {
    hide Receive, WellSized;
    if ds != [] {
      var first := Demux(ds[0], nexts);
      var rest := DemuxAll(ds[1..], first.nexts);
      NonInterference(ds[1..], first.nexts, src);
      OutputsConcat(first.outs, rest.outs, src);
      OutputsOfOne(ds[0], nexts, src);
      if ds[0].source != src || ds[0].bytes == [] {
        assert OutputsOf(first.outs, src) == [];
        assert [] + OutputsOf(rest.outs, src) == OutputsOf(rest.outs, src);
        assert [] + Only(ds[1..], src) == Only(ds[1..], src);
      }
    }
  }

  /** With interleaved traffic, every packet of every source can still be reconstructed from the combined outputs. */
  lemma TraceRecoveryInterleaved(ds: seq<Datagram>, nexts: map<Source, nat>, src: Source)
    requires Tracks(nexts) && Sequenced(src)
    ensures Recover(OutputsOf(DemuxAll(ds, nexts).outs, src), nexts[src]) == Outcomes(Only(ds, src), nexts[src])
  {
    NonInterference(ds, nexts, src);
    TraceRecovery(Only(ds, src), nexts[src]);
  }
}
