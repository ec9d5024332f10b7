/** What the framer guarantees about whole streams: round trip, error detection, resynchronisation, length arguments. */
module VenusGuarantees {
  import opened Bytes
  import opened VenusFrames

  // ---------------------------------------------------------------- round trip

  /** A message that a frame can carry: ID and up to 255 data bytes. */
  predicate Sendable(m: Packet) {
    m.dataLength == |m.payload| < MAX_PACKET
  }

  function EncodeFrame(m: Packet): seq<byte>
    requires Sendable(m)
  {
    var n := |m.payload| + 1;
    [SYNC_1, SYNC_2, n / 256, n % 256, m.id] + m.payload + [CheckXor([m.id] + m.payload), CR, LF]
  }

  function EncodeFrames(ms: seq<Packet>): seq<byte>
    requires forall m :: m in ms ==> Sendable(m)
  {
    if ms == [] then [] else EncodeFrame(ms[0]) + EncodeFrames(ms[1..])
  }

  lemma FrameLayout(m: Packet, t: seq<byte>)
    requires Sendable(m)
    ensures var s := EncodeFrame(m) + t;
            FrameAt(s, 0) && !Undecided(s, 0) && PacketAt(s, 0) == m && FrameEnd(s, 0) == |EncodeFrame(m)|
  {
    hide CheckXor;
    var n := |m.payload| + 1;
    var s := EncodeFrame(m) + t;
    assert PacketLen(s, 0) == n;
    assert s[5..4 + n] == m.payload;
    assert s[4..4 + n] == [m.id] + m.payload;
  }

  lemma {:induction false} ParseFrames(ms: seq<Packet>)
    requires forall m :: m in ms ==> Sendable(m)
    ensures Parse(EncodeFrames(ms)) == Parsed(ms, [])
  {
    hide FrameAt, Undecided, PacketAt, EncodeFrame;
    if ms != [] {
      var head, t := EncodeFrame(ms[0]), EncodeFrames(ms[1..]);
      FrameLayout(ms[0], t);
      ParseFrames(ms[1..]);
      ParseShift(head + t, |head|, 0);
      assert (head + t)[|head|..] == t;
      assert ms == [ms[0]] + ms[1..];
    }
  }

  /** Framed messages sent in datagrams of at most 249 bytes come out unchanged, in order, and leave nothing behind. */
  lemma RoundTrip(ms: seq<Packet>, chunks: seq<seq<byte>>)
    requires forall m :: m in ms ==> Sendable(m)
    requires Concat(chunks) == EncodeFrames(ms)
    requires forall i :: 0 <= i < |chunks| ==> |chunks[i]| <= BUFFER_SIZE - MAX_FRAME
    ensures FeedAll([], chunks) == Parsed(ms, [])
  {
    SmallChunksFit([], chunks);
    ChunkingIndependence(chunks, chunks);
    ParseFrames(ms);
  }

  /**
   * Conversely an accepted frame with a non-empty packet is, byte for byte, the encoding of the message sent for it.
   */
  lemma AcceptedFrameIsEncoding(s: seq<byte>, p: nat)
    requires FrameAt(s, p) && PacketLen(s, p) > 0
    ensures Sendable(PacketAt(s, p)) && s[p..FrameEnd(s, p)] == EncodeFrame(PacketAt(s, p))
    ensures var m := PacketAt(s, p); IsParity([m.id] + m.payload, s[FrameEnd(s, p) - 3])
  {
    hide CheckXor, IsParity;
    FrameExactly(s, p);
    var n, m := PacketLen(s, p), PacketAt(s, p);
    var f, e := s[p..FrameEnd(s, p)], EncodeFrame(PacketAt(s, p));
    assert s[p + 4..p + 4 + n] == [m.id] + m.payload;
    assert n / 256 == s[p + 2] && n % 256 == s[p + 3];
    forall k | 0 <= k < |f|
      ensures f[k] == e[k]
    {
      if 5 <= k < 4 + n {
        assert e[k] == m.payload[k - 5];
      }
    }
  }

  // ---------------------------------------------------------------- error detection

  lemma {:induction false} CheckXorSeesChange(data: seq<byte>, k: nat, b: byte)
    requires k < |data| && b != data[k]
    ensures CheckXor(data[k := b]) != CheckXor(data)
  {
    var last := |data| - 1;
    var data' := data[k := b];
    if k == last {
      assert data'[..last] == data[..last];
      if CheckXor(data') == CheckXor(data) {
        XorCancelLeft(CheckXor(data[..last]), b, data[last]);
      }
    } else {
      CheckXorSeesChange(data[..last], k, b);
      assert data'[..last] == data[..last][k := b];
      if CheckXor(data') == CheckXor(data) {
        XorCommutes(CheckXor(data'[..last]), data[last]);
        XorCommutes(CheckXor(data[..last]), data[last]);
        XorCancelLeft(data[last], CheckXor(data'[..last]), CheckXor(data[..last]));
      }
    }
  }

  /** Changing any one byte of a valid frame's packet or checksum makes it invalid. */
  lemma CorruptByteRejected(s: seq<byte>, p: nat, k: nat, b: byte)
    requires FrameAt(s, p) && p + 4 <= k <= p + 4 + PacketLen(s, p) && b != s[k]
    ensures !FrameAt(s[k := b], p)
  {
    var n := PacketLen(s, p);
    var body, body' := s[p + 4..p + 4 + n], s[k := b][p + 4..p + 4 + n];
    if k < p + 4 + n {
      CheckXorSeesChange(body, k - (p + 4), b);
      assert body' == body[k - (p + 4) := b];
    } else {
      assert body' == body;
    }
  }

  // ---------------------------------------------------------------- resynchronisation

  /** Bytes after the start of a frame within which anything before it has been resolved. */
  const RESYNC_WINDOW := MAX_FRAME - 4

  lemma UndecidedBeforeFrame(s: seq<byte>, q: nat, p: nat)
    requires FrameAt(s, p) && q < p && Undecided(s, q)
    ensures |s| < p + RESYNC_WINDOW
  {
    assert s[p] == SYNC_1;
    if q + OVERHEAD <= |s| && q + 3 == p {
      assert PacketLen(s, q) == U16(s[q + 2], SYNC_1);
    }
  }

  /**
   * Whatever precedes it, a complete valid frame at p has been sent by the time the stream reaches p + 259 bytes (hence
   * certainly by p + 263), unless an earlier accepted frame overlaps it.
   */
  lemma BoundedResync(chunks: seq<seq<byte>>, p: nat)
    requires NoOverrun([], chunks)
    requires FrameAt(Concat(chunks), p) && |Concat(chunks)| >= p + RESYNC_WINDOW
    ensures var s := Concat(chunks);
            var out, starts := FeedAll([], chunks).out, ReadFrom(s, 0).starts;
            && |out| == |starts|
            && ((exists i :: 0 <= i < |starts| && starts[i] == p && out[i] == PacketAt(s, p))
                || (exists i :: 0 <= i < |starts| && starts[i] < p < FrameEnd(s, starts[i])))
  {
    hide FrameAt, Undecided, FrameEnd, PacketAt, Parse, NoOverrun, ReadFrom;
    var s := Concat(chunks);
    ReadIsReading(s, 0);
    var r := ReadFrom(s, 0);
    ChunkingIndependence(chunks, chunks);
    ParseIsTheReading(s, r.starts, r.stop);
    if r.stop <= p {
      FrameDecided(s, p);
      assert p < FrameEnd(s, p);
      UndecidedBeforeFrame(s, r.stop, p);
    }
    assert Covered(s, r.starts, p);
    var i :| 0 <= i < |r.starts| && r.starts[i] <= p < FrameEnd(s, r.starts[i]);
    assert PacketsAt(s, r.starts)[i] == PacketAt(s, r.starts[i]);
  }

  /** The window cannot be shortened: with one byte less, a false header can still hold back a valid frame. */
  lemma ResyncWindowIsTight() returns (s: seq<byte>, p: nat)
    ensures FrameAt(s, p) && |s| == p + RESYNC_WINDOW - 1 && Parse(s) == Parsed([], s)
  {
    var frame: seq<byte> := [SYNC_1, SYNC_2, 0, 1, 0xA8, 0xA8, CR, LF];
    s := [SYNC_1, SYNC_2, 1, 0] + frame + seq(250, i => 0);
    p := 4;
    assert s[8..9] == [0xA8];
    XorOfOne(0xA8);
    assert FrameAt(s, p) by {
      hide CheckXor;
    }
    assert Undecided(s, 0) by {
      hide FrameAt, CheckXor;
    }
  }

  lemma XorOfOne(b: byte)
    ensures CheckXor([b]) == b
  {
    XorZero(b);
    assert [b][..0] == [];
  }

  lemma {:induction false} XorZero(b: nat)
    ensures Xor(0, b) == b
  {
    if b > 0 {
      XorZero(b / 2);
    }
  }

  // ---------------------------------------------------------------- the length argument

  /** The length passed on is the number of data bytes in the frame exactly when the packet is not empty. */
  lemma LengthArgument(s: seq<byte>, p: nat)
    requires FrameAt(s, p)
    ensures var m := PacketAt(s, p);
            && (m.dataLength == |m.payload| <==> PacketLen(s, p) != 0)
            && (PacketLen(s, p) != 0 ==> m.dataLength < MAX_PACKET)
            && (PacketLen(s, p) == 0 ==> m == EMPTY_MESSAGE)
  {
  }

  lemma ParseEnds(s: seq<byte>)
    requires FrameAt(s, 0) && FrameEnd(s, 0) == |s|
    ensures Parse(s) == Parsed([PacketAt(s, 0)], [])
  {
    hide FrameAt, FrameEnd, PacketAt;
    FrameDecided(s, 0);
    assert ParseFrom(s, |s|) == Parsed([], []);
  }

  /** An empty packet passes every test of the framer and is sent with length 65535. */
  lemma EmptyPacketAccepted()
    ensures Parse([SYNC_1, SYNC_2, 0, 0, 0, CR, LF]) == Parsed([Packet(0, 0xFFFF, [])], [])
  {
    var s: seq<byte> := [SYNC_1, SYNC_2, 0, 0, 0, CR, LF];
    assert s[4..4] == [];
    assert CheckXor([]) == 0;
    assert PacketLen(s, 0) == 0;
    assert FrameAt(s, 0);
    ParseEnds(s);
  }

  /** What is sent for an empty packet. */
  const EMPTY_MESSAGE := Packet(0, 0xFFFF, [])

  /** One of the frames of the stream's reading has packet length 0. */
  predicate HasEmptyFrame(s: seq<byte>) {
    exists i :: 0 <= i < |ReadFrom(s, 0).starts| && PacketLen(s, ReadFrom(s, 0).starts[i]) == 0
  }

  /**
   * Every message sent carries the length of its data, except that of an empty frame, which is sent iff there is one.
   */
  lemma ParsedMessages(s: seq<byte>)
    ensures forall m :: m in Parse(s).out ==> m == EMPTY_MESSAGE || Sendable(m)
    ensures EMPTY_MESSAGE in Parse(s).out <==> HasEmptyFrame(s)
  {
    hide FrameAt, Undecided, PacketAt, Parse, ReadFrom, Sendable;
    var r := ReadFrom(s, 0);
    ReadIsReading(s, 0);
    ParseIsTheReading(s, r.starts, r.stop);
    var out := PacketsAt(s, r.starts);
    forall i | 0 <= i < |out|
      ensures out[i] == EMPTY_MESSAGE || Sendable(out[i])
      ensures out[i] == EMPTY_MESSAGE <==> PacketLen(s, r.starts[i]) == 0
    {
      MessageKinds(s, r.starts[i]);
    }
  }

  lemma MessageKinds(s: seq<byte>, p: nat)
    requires FrameAt(s, p)
    ensures if PacketLen(s, p) == 0 then PacketAt(s, p) == EMPTY_MESSAGE
            else PacketAt(s, p) != EMPTY_MESSAGE && Sendable(PacketAt(s, p))
  {
    LengthArgument(s, p);
  }

  /** The buffer contents that are scanned, datagram by datagram. */
  function Scanned(rest: seq<byte>, chunks: seq<seq<byte>>): seq<seq<byte>>
    decreases |chunks|
  {
    if chunks == [] then []
    else
      var s := if |rest| + |chunks[0]| >= BUFFER_SIZE then chunks[0] else rest + chunks[0];
      [s] + Scanned(Parse(s).rest, chunks[1..])
  }

  /** An empty packet's message is sent exactly when some scanned buffer holds an empty frame. */
  lemma {:induction false} EmptyMessageExactly(rest: seq<byte>, chunks: seq<seq<byte>>)
    ensures EMPTY_MESSAGE in FeedAll(rest, chunks).out <==> exists s :: s in Scanned(rest, chunks) && HasEmptyFrame(s)
    decreases |chunks|
  {
    hide Parse, HasEmptyFrame;
    if chunks != [] {
      var s := if |rest| + |chunks[0]| >= BUFFER_SIZE then chunks[0] else rest + chunks[0];
      assert Feed(rest, chunks[0]) == Parse(s);
      ParsedMessages(s);
      EmptyMessageExactly(Parse(s).rest, chunks[1..]);
      assert FeedAll(rest, chunks).out == Parse(s).out + FeedAll(Parse(s).rest, chunks[1..]).out;
      assert s in Scanned(rest, chunks);
    }
  }

  /** Without overruns: exactly when the whole stream's reading has one. */
  lemma EmptyMessageInStream(chunks: seq<seq<byte>>)
    requires NoOverrun([], chunks)
    ensures EMPTY_MESSAGE in FeedAll([], chunks).out <==> HasEmptyFrame(Concat(chunks))
  {
    hide Parse, HasEmptyFrame, NoOverrun, FeedAll;
    ChunkingIndependence(chunks, chunks);
    ParsedMessages(Concat(chunks));
  }
}
