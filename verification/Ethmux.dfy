/** The demultiplexer of src/ethmux.c: an expected number per source, refining SequenceTracking. */
module Ethmux {
  import opened Bytes
  import opened SequenceTracking

  class Ethmux {
    /** The next_sequence of each numbered source's static record. */
    var nextSequence: map<Source, nat>
    /** Everything reported or handed on so far, in order. */
    var outbox: seq<Output>
    /** Everything received so far. */
    ghost var received: seq<Datagram>

    /** What every run keeps: outputs and expected numbers are those the datagrams received call for. */
    ghost predicate Valid()
      reads this
    {
      Tracks(nextSequence) && DemuxAll(received, InitialNexts()) == Demuxed(outbox, nextSequence)
    }

    constructor ()
      ensures Valid() && received == [] && outbox == []
    {
      nextSequence := InitialNexts();
      outbox := [];
      received := [];
    }

    /** Checks a packet's size and number, reports what is wrong, and hands the packet on unless it is old. */
    method SequencedReceive(d: Datagram)
      requires Sequenced(d.source) && Tracks(nextSequence)
      modifies this`nextSequence, this`outbox
      ensures outbox == old(outbox) + Receive(d, old(nextSequence)[d.source]).outs
      ensures nextSequence == old(nextSequence)[d.source := Receive(d, old(nextSequence)[d.source]).next]
    {
      if !WellSized(d) {
        outbox := outbox + [Seqe(d.source, d.timestamp, 0, 0)];
        return;
      }
      var rcvseq := FromBigEndian(d.bytes[..4]);
      var payload := d.bytes[4..];
      var expected := nextSequence[d.source];
      if rcvseq < expected {
        outbox := outbox + [Seqe(d.source, d.timestamp, expected, rcvseq)];
      }
      if rcvseq > expected {
        outbox := outbox + [Seqe(d.source, d.timestamp, expected, rcvseq)];
        outbox := outbox + [Deliver(d.source, d.timestamp, payload)];
      }
      if rcvseq == expected {
        outbox := outbox + [Deliver(d.source, d.timestamp, payload)];
      }
      nextSequence := nextSequence[d.source := (rcvseq + 1) % TWO_32];
    }

    method OnDatagram(d: Datagram)
      requires Valid()
      modifies this
      ensures Valid() && received == old(received) + [d]
      ensures outbox == old(outbox) + Demux(d, old(nextSequence)).outs
      ensures nextSequence == Demux(d, old(nextSequence)).nexts
    {
      hide DemuxAll, Receive;
      DemuxAllThenOne(received, d, InitialNexts());
      if d.bytes != [] {
        match d.source {
          case Arm =>
            outbox := outbox + [Raw(d.source, d.timestamp, d.bytes)];
          case RcServoEnable =>
            outbox := outbox + [Raw(d.source, d.timestamp, d.bytes)];
          case Unknown =>
          case _ =>
            SequencedReceive(d);
        }
      }
      received := received + [d];
    }
  }

  function InitialNexts(): (nexts: map<Source, nat>)
    ensures Tracks(nexts)
  {
    map[Adis := 0, Mpu := 0, Mpl := 0, Bmp := 0, RnhBattery := 0, RnhPort := 0,
        RnhAlarm := 0, RnhUmbdet := 0, FcfHealth := 0, Jgps := 0, GpsCots := 0]
  }

  lemma {:induction false} DemuxAllThenOne(ds: seq<Datagram>, d: Datagram, nexts: map<Source, nat>)
    requires Tracks(nexts)
    ensures var before := DemuxAll(ds, nexts);
            var after := Demux(d, before.nexts);
            DemuxAll(ds + [d], nexts) == Demuxed(before.outs + after.outs, after.nexts)
    decreases |ds|
  {
    hide Demux;
    var all := ds + [d];
    if ds == [] {
      assert all[1..] == [];
      assert DemuxAll(all[1..], Demux(d, nexts).nexts).outs == [];
    } else {
      assert all[1..] == ds[1..] + [d];
      DemuxAllThenOne(ds[1..], d, Demux(ds[0], nexts).nexts);
    }
  }
}
