/** The framer of src/devices/gps.c: a 512-byte buffer scanned and compacted in place, refining VenusFrames. */
module VenusFramer {
  import opened Bytes
  import opened VenusFrames

  /** A call of gps_data_out: the timestamp is that of the datagram that completed the frame. */
  datatype Sent = Sent(timestamp: seq<byte>, packet: Packet)

  function Stamped(timestamp: seq<byte>, ms: seq<Packet>): (out: seq<Sent>)
    ensures |out| == |ms| && forall i :: 0 <= i < |ms| ==> out[i] == Sent(timestamp, ms[i])
  {
    seq(|ms|, i requires 0 <= i < |ms| => Sent(timestamp, ms[i]))
  }

  // The scan's jumps, as steps of the byte-by-byte walk.

  lemma {:induction false} WalkOverJunk(s: seq<byte>, lo: nat, hi: nat)
    requires lo <= hi <= |s|
    requires forall k :: lo <= k < hi ==> s[k] != SYNC_1
    ensures ParseFrom(s, lo) == ParseFrom(s, hi)
    decreases hi - lo
  {
    if lo < hi {
      WalkOverJunk(s, lo + 1, hi);
    }
  }

  lemma WalkOverHeader(s: seq<byte>, p: nat, count: nat)
    requires 1 <= count <= 2 && p + count <= |s| && !FrameAt(s, p) && !Undecided(s, p)
    requires count == 2 ==> s[p + 1] != SYNC_1
    ensures ParseFrom(s, p) == ParseFrom(s, p + count)
  {
    WalkOverJunk(s, p + 1, p + count);
  }

  lemma WalkOverFrame(s: seq<byte>, p: nat)
    requires FrameAt(s, p)
    ensures FrameEnd(s, p) == p + OVERHEAD + PacketLen(s, p)
    ensures ParseFrom(s, p) ==
            Parsed([PacketAt(s, p)] + ParseFrom(s, FrameEnd(s, p)).out, ParseFrom(s, FrameEnd(s, p)).rest)
  {
  }

  lemma WalkEnds(s: seq<byte>, p: nat)
    requires p == |s| || Undecided(s, p)
    ensures ParseFrom(s, p) == Parsed([], s[p..])
  {
  }

  lemma FrameByParts(s: seq<byte>, p: nat, n: nat)
    requires p + OVERHEAD <= |s| && s[p] == SYNC_1 && s[p + 1] == SYNC_2
    requires n == PacketLen(s, p)
    ensures n > MAX_PACKET ==> !FrameAt(s, p) && !Undecided(s, p)
    ensures n <= MAX_PACKET && |s| < p + OVERHEAD + n ==> Undecided(s, p)
    ensures n <= MAX_PACKET && p + OVERHEAD + n <= |s| ==>
              !Undecided(s, p)
              && (FrameAt(s, p) <==>
                  CheckXor(s[p + 4..p + 4 + n]) == s[p + 4 + n] && s[p + 5 + n] == CR && s[p + 6 + n] == LF)
  {
  }

  /** The messages sent, without their timestamps. */
  function Messages(sent: seq<Sent>): seq<Packet> {
    seq(|sent|, i requires 0 <= i < |sent| => sent[i].packet)
  }

  lemma MessagesStamped(sent: seq<Sent>, timestamp: seq<byte>, ms: seq<Packet>)
    ensures Messages(sent + Stamped(timestamp, ms)) == Messages(sent) + ms
  {
  }

  lemma StampedCons(timestamp: seq<byte>, m: Packet, ms: seq<Packet>)
    ensures Stamped(timestamp, [m] + ms) == [Sent(timestamp, m)] + Stamped(timestamp, ms)
  {
  }

  lemma StampedNone(timestamp: seq<byte>)
    ensures Stamped(timestamp, []) == []
  {
  }

  datatype Verdict = Wait | Skip(count: nat) | Accept(packetLen: nat)

  class VenusFramer {
    const buf: array<byte>
    var cur: nat
    /** Everything sent so far, in order. */
    var outbox: seq<Sent>
    /** Every datagram received so far. */
    ghost var fed: seq<seq<byte>>

    predicate InBounds()
      reads this
    {
      buf.Length == BUFFER_SIZE && cur <= buf.Length
    }

    function Residue(): seq<byte>
      reads this, buf
      requires InBounds()
    {
      buf[..cur]
    }

    /** The buffer is settled, and it and the messages sent are what the datagrams received call for. */
    ghost predicate Valid()
      reads this, buf
    {
      InBounds() && Settled(Residue()) && FeedAll([], fed) == Parsed(Messages(outbox), Residue())
    }

    constructor ()
      ensures Valid() && Residue() == [] && outbox == [] && fed == [] && fresh(buf)
    {
      buf := new byte[BUFFER_SIZE](_ => 0);
      cur := 0;
      outbox := [];
      fed := [];
    }

    method CheXxor(start: nat, len: nat) returns (ret: byte)
      requires InBounds() && start + len <= cur
      ensures ret == CheckXor(Residue()[start..start + len]) && IsParity(Residue()[start..start + len], ret)
    {
      ghost var s := Residue();
      ret := 0;
      var i := 0;
      while i < len
        invariant i <= len && ret == CheckXor(s[start..start + i])
      {
        assert s[start..start + i + 1][..i] == s[start..start + i];
        assert CheckXor(s[start..start + i + 1]) == XorByte(CheckXor(s[start..start + i]), s[start + i]);
        ret := XorByte(ret, buf[start + i]);
        i := i + 1;
      }
      CheckXorIs(s[start..start + len], ret);
    }

    /** The first position in start..end that holds c, or end. */
    method MemChr(c: byte, start: nat, end: nat) returns (found: nat)
      requires start <= end <= buf.Length
      ensures start <= found <= end && (found < end ==> buf[found] == c)
      ensures forall k :: start <= k < found ==> buf[k] != c
    {
      found := start;
      while found < end && buf[found] != c
        invariant start <= found <= end
        invariant forall k :: start <= k < found ==> buf[k] != c
      {
        found := found + 1;
      }
    }

    /** Moves buf[from..from + len] to the front of the buffer. */
    method MoveToFront(from: nat, len: nat)
      requires from + len <= buf.Length
      modifies buf
      ensures buf[..len] == old(buf[from..from + len])
    {
      var i := 0;
      while i < len
        invariant i <= len
        invariant forall k :: 0 <= k < i ==> buf[k] == old(buf[from + k])
        invariant forall k :: i <= k < buf.Length ==> buf[k] == old(buf[k])
      {
        buf[i] := buf[from + i];
        i := i + 1;
      }
    }

    method Append(data: seq<byte>)
      requires InBounds() && cur + |data| <= BUFFER_SIZE
      modifies this`cur, buf
      ensures InBounds() && Residue() == old(Residue()) + data
    {
      var i := 0;
      while i < |data|
        invariant i <= |data| && cur == old(cur)
        invariant buf[..cur + i] == old(buf[..cur]) + data[..i]
      {
        buf[cur + i] := data[i];
        i := i + 1;
      }
      cur := cur + |data|;
    }

    /** The tests made at an A0 byte: is a frame there, may one still be, or how many bytes to skip. */
    method Examine(frame: nat) returns (v: Verdict)
      requires InBounds() && frame < cur && buf[frame] == SYNC_1
      ensures v.Wait? <==> Undecided(Residue(), frame)
      ensures v.Accept? <==> FrameAt(Residue(), frame)
      ensures v.Accept? ==> v.packetLen == PacketLen(Residue(), frame)
      ensures v.Skip? ==> frame + v.count <= cur && (v.count == 1 || (v.count == 2 && buf[frame + 1] != SYNC_1))
    {
      hide FrameAt, Undecided;
      ghost var s := Residue();
      FrameDecided(s, frame);
      if frame + OVERHEAD > cur {
        TooShort(s, frame);
        return Wait;
      }
      if buf[frame + 1] != SYNC_2 {
        NoHeader(s, frame);
        return Skip(1);
      }
      var packetLen := U16(buf[frame + 2], buf[frame + 3]);
      FrameByParts(s, frame, packetLen);
      if packetLen > buf.Length / 2 {
        return Skip(2);
      }
      if frame + OVERHEAD + packetLen > cur {
        return Wait;
      }
      if buf[frame + 5 + packetLen] != CR || buf[frame + 6 + packetLen] != LF {
        return Skip(2);
      }
      var sum := CheXxor(frame + 4, packetLen);
      if sum != buf[frame + 4 + packetLen] {
        return Skip(2);
      }
      return Accept(packetLen);
    }

    /** The arguments of gps_data_out for the frame just examined. */
    method Message(frame: nat, packetLen: nat) returns (m: Packet)
      requires InBounds() && FrameAt(Residue(), frame) && packetLen == PacketLen(Residue(), frame)
      ensures m == PacketAt(Residue(), frame)
    {
      m := Packet(buf[frame + 4], (packetLen - 1) % TWO_16,
                  if packetLen == 0 then [] else buf[frame + 5..frame + 4 + packetLen]);
      if packetLen > 0 {
        assert buf[frame + 5..frame + 4 + packetLen] == Residue()[frame + 5..frame + 4 + packetLen];
      }
    }

    /** Sends every complete frame in the buffer; the bytes from `frame` on are unfinished (none, if no A0 is left). */
    method SendFrames(timestamp: seq<byte>) returns (frame: nat)
      requires InBounds()
      modifies this`outbox
      ensures frame <= cur && Residue()[frame..] == Parse(Residue()).rest
      ensures outbox == old(outbox) + Stamped(timestamp, Parse(Residue()).out)
    {
      hide FrameAt, Undecided, FrameEnd, PacketAt, ParseFrom, Stamped;
      ghost var s := Residue();
      ghost var all := old(outbox) + Stamped(timestamp, Parse(s).out);
      frame := 0;
      while frame < cur
        invariant frame <= cur
        invariant ParseFrom(s, frame).rest == Parse(s).rest
        invariant outbox + Stamped(timestamp, ParseFrom(s, frame).out) == all
        decreases cur - frame
      {
        var start := frame;
        frame := MemChr(SYNC_1, start, cur);
        WalkOverJunk(s, start, frame);
        if frame == cur {
          break;
        }

        var verdict := Examine(frame);
        FrameDecided(s, frame);
        match verdict {
          case Wait =>
            break;
          case Skip(count) =>
            WalkOverHeader(s, frame, count);
            frame := frame + count;
          case Accept(packetLen) =>
            WalkOverFrame(s, frame);
            var m := Message(frame, packetLen);
            StampedCons(timestamp, m, ParseFrom(s, FrameEnd(s, frame)).out);
            outbox := outbox + [Sent(timestamp, m)];
            frame := frame + packetLen + OVERHEAD;
        }
      }
      WalkEnds(s, frame);
      StampedNone(timestamp);
    }

    /** Sends every complete frame in the buffer and moves the unfinished tail to the front. */
    method SendVenusMessages(timestamp: seq<byte>)
      requires InBounds()
      modifies this`cur, this`outbox, buf
      ensures InBounds()
      ensures Residue() == Parse(old(Residue())).rest
      ensures outbox == old(outbox) + Stamped(timestamp, Parse(old(Residue())).out)
    {
      hide Parse, Stamped;
      var frame := SendFrames(timestamp);
      assert buf[frame..cur] == Residue()[frame..];
      MoveToFront(frame, cur - frame);
      cur := cur - frame;
    }

    /** One datagram from the GPS. */
    method CotsRawIn(timestamp: seq<byte>, data: seq<byte>)
      requires Valid() && |data| <= BUFFER_SIZE
      modifies this, buf
      ensures Valid() && fed == old(fed) + [data]
      ensures Residue() == Feed(old(Residue()), data).rest
      ensures outbox == old(outbox) + Stamped(timestamp, Feed(old(Residue()), data).out)
    {
      hide Parse, Settled, Feed, FeedAll, Stamped, Messages;
      if cur + |data| >= buf.Length {
        cur := 0;
      }
      Append(data);
      assert Residue() == if |old(Residue())| + |data| >= BUFFER_SIZE then data else old(Residue()) + data;
      ghost var s := Residue();
      SendVenusMessages(timestamp);
      SettledRest(s);
      FeedParses(old(Residue()), data);
      FeedAllThenOne([], fed, data);
      MessagesStamped(old(outbox), timestamp, Parse(s).out);
      fed := fed + [data];
    }
  }

  lemma TooShort(s: seq<byte>, p: nat)
    requires p < |s| < p + OVERHEAD && s[p] == SYNC_1
    ensures Undecided(s, p)
  {
  }

  lemma NoHeader(s: seq<byte>, p: nat)
    requires p + OVERHEAD <= |s| && s[p + 1] != SYNC_2
    ensures !FrameAt(s, p) && !Undecided(s, p)
  {
  }

  lemma FeedParses(rest: seq<byte>, chunk: seq<byte>)
    ensures Feed(rest, chunk) == Parse(if |rest| + |chunk| >= BUFFER_SIZE then chunk else rest + chunk)
  {
  }

  lemma SettledRest(s: seq<byte>)
    ensures Settled(Parse(s).rest)
  {
    RestSettled(s, 0);
  }
}
