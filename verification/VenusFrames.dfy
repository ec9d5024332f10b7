/**
 * Venus GPS frames: what the framer of src/devices/gps.c does to a byte stream, as a function of the stream alone.
 *
 * A frame is A0 A1, a 16-bit big-endian packet length n <= 256, an n-byte packet (an ID byte and data),
 * the XOR of the packet, and CR LF.
 */
module VenusFrames {
  import opened Bytes

  const SYNC_1: byte := 0xA0
  const SYNC_2: byte := 0xA1
  const CR: byte := 0x0D
  const LF: byte := 0x0A

  const BUFFER_SIZE := 512
  const MAX_PACKET := BUFFER_SIZE / 2
  const OVERHEAD := 7
  /** The longest frame. */
  const MAX_FRAME := OVERHEAD + MAX_PACKET

  /** XOR of the bytes, accumulated from the left. */
  function CheckXor(data: seq<byte>): byte {
    if data == [] then 0 else XorByte(CheckXor(data[..|data| - 1]), data[|data| - 1])
  }

  /** How many of the bytes have bit k. */
  function BitCount(data: seq<byte>, k: nat): nat {
    if data == [] then 0 else BitCount(data[1..], k) + Bit(data[0], k)
  }

  lemma {:induction false} BitCountSnoc(data: seq<byte>, b: byte, k: nat)
    ensures BitCount(data + [b], k) == BitCount(data, k) + Bit(b, k)
  {
    hide Bit;
    var all := data + [b];
    if data == [] {
      assert all[1..] == [];
    } else {
      assert all[1..] == data[1..] + [b];
      BitCountSnoc(data[1..], b, k);
    }
  }

  /** Bit k of the checksum is set exactly when an odd number of the bytes have it. */
  lemma {:induction false} CheckXorBit(data: seq<byte>, k: nat)
    ensures Bit(CheckXor(data), k) == BitCount(data, k) % 2
  {
    hide Bit;
    if data == [] {
      ZeroBit(k);
    } else {
      var front, last := data[..|data| - 1], data[|data| - 1];
      assert data == front + [last];
      CheckXorBit(front, k);
      BitCountSnoc(front, last, k);
      XorBit(CheckXor(front), last, k);
    }
  }

  lemma ZeroBit(k: nat)
    ensures Bit(0, k) == 0
  {
  }

  /** Each bit of a byte says whether an odd number of the bytes have it. */
  predicate IsParity(data: seq<byte>, b: byte) {
    forall k: nat :: k < 8 ==> Bit(b, k) == BitCount(data, k) % 2
  }

  /** The checksum is the one byte with these parities for its bits. */
  lemma CheckXorIs(data: seq<byte>, b: byte)
    ensures b == CheckXor(data) <==> IsParity(data, b)
  {
    hide Bit, BitCount, CheckXor;
    forall k: nat
      ensures Bit(CheckXor(data), k) == BitCount(data, k) % 2
    {
      CheckXorBit(data, k);
    }
    if IsParity(data, b) {
      assert Pow2(8) == 256 by { assert Pow2(4) == 16; }
      SameBits(b, CheckXor(data), 8);
    }
  }

  /** A message as handed to gps_data_out: the ID byte, the length argument and the data bytes of the frame. */
  datatype Packet = Packet(id: byte, dataLength: nat, payload: seq<byte>)

  // ---------------------------------------------------------------- frames in a stream

  function PacketLen(s: seq<byte>, p: nat): nat
    requires p + 4 <= |s|
  {
    U16(s[p + 2], s[p + 3])
  }

  /** A complete, valid frame starts at p. */
  predicate FrameAt(s: seq<byte>, p: nat) {
    && p + OVERHEAD <= |s|
    && s[p] == SYNC_1 && s[p + 1] == SYNC_2
    && var n := PacketLen(s, p);
    && n <= MAX_PACKET
    && p + OVERHEAD + n <= |s|
    && CheckXor(s[p + 4..p + 4 + n]) == s[p + 4 + n]
    && s[p + 5 + n] == CR && s[p + 6 + n] == LF
  }

  /** A frame, byte by byte: marker, length of at most 256, packet, parities of the packet's bits, CR LF. */
  lemma FrameExactly(s: seq<byte>, p: nat)
    ensures FrameAt(s, p) <==>
            && p + 7 <= |s| && s[p] == 0xA0 && s[p + 1] == 0xA1
            && var n := 256 * (s[p + 2] as int) + s[p + 3] as int;
            && n <= 256 && p + 7 + n <= |s|
            && IsParity(s[p + 4..p + 4 + n], s[p + 4 + n]) && s[p + 5 + n] == 0x0D && s[p + 6 + n] == 0x0A
  {
    hide CheckXor, IsParity;
    if p + 7 <= |s| && p + 7 + PacketLen(s, p) <= |s| {
      var n := PacketLen(s, p);
      CheckXorIs(s[p + 4..p + 4 + n], s[p + 4 + n]);
    }
  }

  /** The bytes from p on are too few to decide whether a frame starts at p. */
  predicate Undecided(s: seq<byte>, p: nat) {
    && p < |s|
    && s[p] == SYNC_1
    && (|s| < p + OVERHEAD
        || (s[p + 1] == SYNC_2 && PacketLen(s, p) <= MAX_PACKET && |s| < p + OVERHEAD + PacketLen(s, p)))
  }

  /** Where the frame at p ends. */
  function FrameEnd(s: seq<byte>, p: nat): (end: nat)
    requires FrameAt(s, p)
    ensures p < end <= |s|
  {
    p + OVERHEAD + PacketLen(s, p)
  }

  /** The message sent for the frame at p; its length argument is `packet_len - 1` in 16-bit arithmetic. */
  function PacketAt(s: seq<byte>, p: nat): Packet
    requires FrameAt(s, p)
  {
    var n := PacketLen(s, p);
    Packet(s[p + 4], (n - 1) % TWO_16, if n == 0 then [] else s[p + 5..p + 4 + n])
  }

  // ---------------------------------------------------------------- reading a stream byte by byte

  datatype Parsed = Parsed(out: seq<Packet>, rest: seq<byte>)

  /** Walk right from p one byte at a time, taking each frame met; stop where more bytes are needed. */
  function ParseFrom(s: seq<byte>, p: nat): Parsed
    requires p <= |s|
    decreases |s| - p
  {
    if p == |s| || Undecided(s, p) then Parsed([], s[p..])
    else if FrameAt(s, p) then
      var tail := ParseFrom(s, FrameEnd(s, p));
      Parsed([PacketAt(s, p)] + tail.out, tail.rest)
    else ParseFrom(s, p + 1)
  }

  function Parse(s: seq<byte>): Parsed {
    ParseFrom(s, 0)
  }

  /** What one datagram does to the unfinished bytes: a datagram that does not fit drops them first. */
  function Feed(rest: seq<byte>, chunk: seq<byte>): Parsed {
    if |rest| + |chunk| >= BUFFER_SIZE then Parse(chunk) else Parse(rest + chunk)
  }

  function FeedAll(rest: seq<byte>, chunks: seq<seq<byte>>): Parsed
    decreases |chunks|
  {
    if chunks == [] then Parsed([], rest)
    else
      var first := Feed(rest, chunks[0]);
      var tail := FeedAll(first.rest, chunks[1..]);
      Parsed(first.out + tail.out, tail.rest)
  }

  /** No datagram of the list finds too little room. */
  predicate NoOverrun(rest: seq<byte>, chunks: seq<seq<byte>>)
    decreases |chunks|
  {
    chunks == []
    || (|rest| + |chunks[0]| < BUFFER_SIZE && NoOverrun(Feed(rest, chunks[0]).rest, chunks[1..]))
  }

  function Concat(chunks: seq<seq<byte>>): seq<byte> {
    if chunks == [] then [] else chunks[0] + Concat(chunks[1..])
  }

  /** What may be left in the buffer between datagrams. */
  predicate Settled(rest: seq<byte>) {
    rest == [] || (Undecided(rest, 0) && |rest| < MAX_FRAME)
  }

  // ---------------------------------------------------------------- chunking independence

  /** A verdict does not depend on the bytes before p, nor, once decided, on bytes that arrive later. */
  lemma FrameShift(s: seq<byte>, k: nat, p: nat)
    requires k <= |s|
    ensures FrameAt(s[k..], p) <==> FrameAt(s, k + p)
    ensures Undecided(s[k..], p) <==> Undecided(s, k + p)
    ensures FrameAt(s, k + p) ==>
              PacketAt(s[k..], p) == PacketAt(s, k + p) && FrameEnd(s, k + p) == k + FrameEnd(s[k..], p)
  {
    hide CheckXor;
    var t := s[k..];
    assert |t| == |s| - k;
    if p + OVERHEAD <= |t| {
      var n := PacketLen(t, p);
      assert n == PacketLen(s, k + p);
      if p + OVERHEAD + n <= |t| {
        SliceShift(s, k, p + 4, p + 4 + n);
        if n > 0 {
          SliceShift(s, k, p + 5, p + 4 + n);
        }
      }
    }
  }

  lemma SliceShift(s: seq<byte>, k: nat, i: nat, j: nat)
    requires i <= j && k + j <= |s|
    ensures s[k..][i..j] == s[k + i..k + j]
  {
  }

  lemma FrameStable(a: seq<byte>, b: seq<byte>, p: nat)
    requires p < |a| && !Undecided(a, p)
    ensures !Undecided(a + b, p)
    ensures FrameAt(a + b, p) <==> FrameAt(a, p)
    ensures FrameAt(a, p) ==> PacketAt(a + b, p) == PacketAt(a, p) && FrameEnd(a + b, p) == FrameEnd(a, p)
  {
    hide CheckXor;
    var s := a + b;
    if p + OVERHEAD <= |a| {
      var n := PacketLen(a, p);
      if p + OVERHEAD + n <= |a| {
        assert s[p + 4..p + 4 + n] == a[p + 4..p + 4 + n];
        if n > 0 {
          assert s[p + 5..p + 4 + n] == a[p + 5..p + 4 + n];
        }
      }
    }
  }

  lemma {:induction false} ParseShift(s: seq<byte>, k: nat, p: nat)
    requires k + p <= |s|
    ensures ParseFrom(s, k + p) == ParseFrom(s[k..], p)
    decreases |s| - p
  {
    FrameShift(s, k, p);
    if k + p == |s| || Undecided(s, k + p) {
      assert s[k..][p..] == s[k + p..];
    } else if FrameAt(s, k + p) {
      ParseShift(s, k, FrameEnd(s[k..], p));
    } else {
      ParseShift(s, k, p + 1);
    }
  }

  /** Parsing a + b is parsing a, then parsing what a left unfinished followed by b. */
  lemma {:induction false} ParseConcatFrom(a: seq<byte>, b: seq<byte>, p: nat)
    requires p <= |a|
    ensures var first := ParseFrom(a, p);
            var second := Parse(first.rest + b);
            ParseFrom(a + b, p) == Parsed(first.out + second.out, second.rest)
    decreases |a| - p
  {
    if p == |a| || Undecided(a, p) {
      assert (a + b)[p..] == a[p..] + b;
      ParseShift(a + b, p, 0);
      assert ParseFrom(a, p) == Parsed([], a[p..]);
    } else {
      FrameStable(a, b, p);
      if FrameAt(a, p) {
        ParseConcatFrom(a, b, FrameEnd(a, p));
      } else {
        ParseConcatFrom(a, b, p + 1);
      }
    }
  }

  /** What is left over is empty or an undecided frame start of at most 262 bytes, and parses to itself. */
  lemma {:induction false} RestSettled(s: seq<byte>, p: nat)
    requires p <= |s|
    ensures Settled(ParseFrom(s, p).rest)
    decreases |s| - p
  {
    if p == |s| {
    } else if Undecided(s, p) {
      FrameShift(s, p, 0);
    } else if FrameAt(s, p) {
      RestSettled(s, FrameEnd(s, p));
    } else {
      RestSettled(s, p + 1);
    }
  }

  lemma SettledParse(rest: seq<byte>)
    requires Settled(rest)
    ensures Parse(rest) == Parsed([], rest)
  {
    assert rest[0..] == rest;
  }

  lemma {:induction false} FeedAllIsParse(rest: seq<byte>, chunks: seq<seq<byte>>)
    requires Settled(rest) && NoOverrun(rest, chunks)
    ensures FeedAll(rest, chunks) == Parse(rest + Concat(chunks))
    decreases |chunks|
  {
    hide ParseFrom, Undecided, Settled;
    if chunks == [] {
      assert rest + [] == rest;
      SettledParse(rest);
    } else {
      var first := Feed(rest, chunks[0]);
      RestSettled(rest + chunks[0], 0);
      FeedAllIsParse(first.rest, chunks[1..]);
      ParseConcatFrom(rest + chunks[0], Concat(chunks[1..]), 0);
      assert rest + Concat(chunks) == rest + chunks[0] + Concat(chunks[1..]);
    }
  }

  /** However a stream is cut into datagrams without an overrun, the same messages come out and the same bytes stay. */
  lemma ChunkingIndependence(chunks: seq<seq<byte>>, chunks': seq<seq<byte>>)
    requires Concat(chunks) == Concat(chunks')
    requires NoOverrun([], chunks) && NoOverrun([], chunks')
    ensures FeedAll([], chunks) == FeedAll([], chunks') == Parse(Concat(chunks))
  {
    FeedAllIsParse([], chunks);
    FeedAllIsParse([], chunks');
    assert [] + Concat(chunks) == Concat(chunks);
    assert [] + Concat(chunks') == Concat(chunks');
  }

  /** Further datagrams act on what the earlier ones left. */
  lemma {:induction false} FeedAllConcat(rest: seq<byte>, chunks: seq<seq<byte>>, later: seq<seq<byte>>)
    ensures var before := FeedAll(rest, chunks);
            var after := FeedAll(before.rest, later);
            FeedAll(rest, chunks + later) == Parsed(before.out + after.out, after.rest)
    decreases |chunks|
  {
    hide Feed;
    if chunks == [] {
      assert chunks + later == later;
    } else {
      FeedAllConcat(Feed(rest, chunks[0]).rest, chunks[1..], later);
      assert (chunks + later)[1..] == chunks[1..] + later;
    }
  }

  lemma FeedAllThenOne(rest: seq<byte>, chunks: seq<seq<byte>>, chunk: seq<byte>)
    ensures var before := FeedAll(rest, chunks);
            var after := Feed(before.rest, chunk);
            FeedAll(rest, chunks + [chunk]) == Parsed(before.out + after.out, after.rest)
  {
    hide Feed;
    FeedAllConcat(rest, chunks, [chunk]);
    assert [chunk][1..] == [];
    var after := Feed(FeedAll(rest, chunks).rest, chunk);
    assert FeedAll(FeedAll(rest, chunks).rest, [chunk]) == Parsed(after.out + [], after.rest);
    assert after.out + [] == after.out;
  }

  /** Datagrams of at most 249 bytes never overrun the buffer. */
  lemma {:induction false} SmallChunksFit(rest: seq<byte>, chunks: seq<seq<byte>>)
    requires Settled(rest)
    requires forall i :: 0 <= i < |chunks| ==> |chunks[i]| <= BUFFER_SIZE - MAX_FRAME
    ensures NoOverrun(rest, chunks)
    decreases |chunks|
  {
    if chunks != [] {
      RestSettled(rest + chunks[0], 0);
      SmallChunksFit(Feed(rest, chunks[0]).rest, chunks[1..]);
    }
  }

  /**
   * An overrun cuts the stream: the messages up to the first datagram that finds too little room are those of the bytes
   * before it, and from it on everything is as if it were the first datagram received. No datagram exceeds the buffer.
   */
  lemma OverrunStartsAfresh(before: seq<seq<byte>>, chunk: seq<byte>, later: seq<seq<byte>>)
    requires NoOverrun([], before)
    requires |Parse(Concat(before)).rest| + |chunk| >= BUFFER_SIZE
    requires forall c :: c in before + [chunk] + later ==> |c| <= BUFFER_SIZE
    ensures var afresh := FeedAll([], [chunk] + later);
            FeedAll([], before + [chunk] + later) == Parsed(Parse(Concat(before)).out + afresh.out, afresh.rest)
  {
    hide ParseFrom, NoOverrun, Settled;
    ChunkingIndependence(before, before);
    assert before + [chunk] + later == before + ([chunk] + later);
    FeedAllConcat([], before, [chunk] + later);
    assert ([chunk] + later)[1..] == later;
    assert Feed(Parse(Concat(before)).rest, chunk) == Parse(chunk) == Feed([], chunk) by {
      assert [] + chunk == chunk;
    }
  }

  // ---------------------------------------------------------------- which frames are taken

  /** q lies in one of the frames that start at `starts`. */
  predicate Covered(s: seq<byte>, starts: seq<nat>, q: nat)
    requires forall i :: 0 <= i < |starts| ==> FrameAt(s, starts[i])
  {
    exists i :: 0 <= i < |starts| && starts[i] <= q < FrameEnd(s, starts[i])
  }

  /**
   * A reading of the stream from p: disjoint valid frames in order up to `stop`; every position before `stop` outside
   * those frames is decided and starts no frame; reading stopped at the end or at an undecided position.
   */
  predicate IsReading(s: seq<byte>, p: nat, starts: seq<nat>, stop: nat) {
    && p <= stop <= |s|
    && (forall i :: 0 <= i < |starts| ==> FrameAt(s, starts[i]) && p <= starts[i] && FrameEnd(s, starts[i]) <= stop)
    && (forall i, j :: 0 <= i < j < |starts| ==> FrameEnd(s, starts[i]) <= starts[j])
    && (forall q :: p <= q < stop && !Covered(s, starts, q) ==> !FrameAt(s, q) && !Undecided(s, q))
    && (stop == |s| || Undecided(s, stop))
  }

  function PacketsAt(s: seq<byte>, starts: seq<nat>): (out: seq<Packet>)
    requires forall i :: 0 <= i < |starts| ==> FrameAt(s, starts[i])
    ensures |out| == |starts| && forall i :: 0 <= i < |starts| ==> out[i] == PacketAt(s, starts[i])
  {
    if starts == [] then [] else [PacketAt(s, starts[0])] + PacketsAt(s, starts[1..])
  }

  lemma CoveredTail(s: seq<byte>, starts: seq<nat>, q: nat)
    requires starts != [] && forall i :: 0 <= i < |starts| ==> FrameAt(s, starts[i])
    ensures Covered(s, starts, q) <==> starts[0] <= q < FrameEnd(s, starts[0]) || Covered(s, starts[1..], q)
  {
    if Covered(s, starts, q) {
      var i :| 0 <= i < |starts| && starts[i] <= q < FrameEnd(s, starts[i]);
      if i > 0 {
        assert starts[1..][i - 1] == starts[i];
      }
    }
    if Covered(s, starts[1..], q) {
      var i :| 0 <= i < |starts[1..]| && starts[1..][i] <= q < FrameEnd(s, starts[1..][i]);
      assert starts[i + 1] == starts[1..][i];
    }
  }

  datatype Reading = Reading(starts: seq<nat>, stop: nat)

  /** The frames met walking right from p, and where the walk stops. */
  function ReadFrom(s: seq<byte>, p: nat): (r: Reading)
    requires p <= |s|
    ensures p <= r.stop <= |s|
    ensures forall i :: 0 <= i < |r.starts| ==> FrameAt(s, r.starts[i])
    decreases |s| - p
  {
    if p == |s| || Undecided(s, p) then Reading([], p)
    else if FrameAt(s, p) then
      var tail := ReadFrom(s, FrameEnd(s, p));
      Reading([p] + tail.starts, tail.stop)
    else ReadFrom(s, p + 1)
  }

  lemma ReadingTakesFrame(s: seq<byte>, p: nat, tail: seq<nat>, stop: nat)
    requires FrameAt(s, p)
    requires IsReading(s, FrameEnd(s, p), tail, stop)
    ensures IsReading(s, p, [p] + tail, stop)
  {
    hide FrameAt, Undecided, FrameEnd;
    var starts := [p] + tail;
    assert starts[1..] == tail;
    forall i | 0 <= i < |starts|
      ensures FrameAt(s, starts[i]) && p <= starts[i] && FrameEnd(s, starts[i]) <= stop
    {
      assert i > 0 ==> starts[i] == tail[i - 1];
    }
    forall i, j | 0 <= i < j < |starts|
      ensures FrameEnd(s, starts[i]) <= starts[j]
    {
      assert starts[j] == tail[j - 1];
      assert i > 0 ==> starts[i] == tail[i - 1];
    }
    forall q | p <= q < stop && !Covered(s, starts, q)
      ensures !FrameAt(s, q) && !Undecided(s, q)
    {
      CoveredTail(s, starts, q);
    }
  }

  lemma ReadingSkips(s: seq<byte>, p: nat, starts: seq<nat>, stop: nat)
    requires p < |s| && !FrameAt(s, p) && !Undecided(s, p)
    ensures IsReading(s, p + 1, starts, stop) <==> IsReading(s, p, starts, stop)
  {
    hide FrameAt, Undecided, FrameEnd;
    if IsReading(s, p, starts, stop) {
      assert p < stop;
      forall i | 0 <= i < |starts|
        ensures p + 1 <= starts[i]
      {
        assert FrameAt(s, starts[i]) && p <= starts[i];
      }
    }
  }

  lemma ReadingStops(s: seq<byte>, p: nat)
    requires p == |s| || Undecided(s, p)
    ensures IsReading(s, p, [], p)
  {
  }

  lemma {:induction false} ReadIsReading(s: seq<byte>, p: nat)
    requires p <= |s|
    ensures IsReading(s, p, ReadFrom(s, p).starts, ReadFrom(s, p).stop)
    decreases |s| - p
  {
    hide FrameAt, Undecided, FrameEnd, IsReading;
    var r := ReadFrom(s, p);
    if p == |s| || Undecided(s, p) {
      ReadingStops(s, p);
    } else if FrameAt(s, p) {
      ReadIsReading(s, FrameEnd(s, p));
      ReadingTakesFrame(s, p, ReadFrom(s, FrameEnd(s, p)).starts, r.stop);
    } else {
      ReadIsReading(s, p + 1);
      ReadingSkips(s, p, r.starts, r.stop);
    }
  }

  /** A reading from p either starts with a frame at p and goes on after it, or skips p, or ends there. */
  lemma ReadingSteps(s: seq<byte>, p: nat, starts: seq<nat>, stop: nat)
    requires IsReading(s, p, starts, stop)
    ensures p == |s| || Undecided(s, p) ==> stop == p && starts == []
    ensures FrameAt(s, p) ==> starts != [] && starts[0] == p && IsReading(s, FrameEnd(s, p), starts[1..], stop)
    ensures p < |s| && !Undecided(s, p) && !FrameAt(s, p) ==> IsReading(s, p + 1, starts, stop)
  {
    hide FrameAt, FrameEnd, Undecided;
    FrameDecided(s, p);
    if starts != [] {
      assert FrameAt(s, starts[0]) && starts[0] < FrameEnd(s, starts[0]) <= stop;
    }
    if p < stop && (starts == [] || starts[0] > p) {
      assert !Covered(s, starts, p);
    }
    if FrameAt(s, p) {
      assert p < FrameEnd(s, p) <= |s|;
      var tail := starts[1..];
      forall q | FrameEnd(s, p) <= q < stop && !Covered(s, tail, q)
        ensures !FrameAt(s, q) && !Undecided(s, q)
      {
        CoveredTail(s, starts, q);
      }
    } else if p < |s| && !Undecided(s, p) {
      ReadingSkips(s, p, starts, stop);
    }
  }

  lemma {:induction false} ReadingIsRead(s: seq<byte>, p: nat, starts: seq<nat>, stop: nat)
    requires IsReading(s, p, starts, stop)
    ensures p <= |s| && ReadFrom(s, p) == Reading(starts, stop)
    decreases |s| - p
  {
    hide FrameAt, FrameEnd, Undecided, IsReading;
    ReadingInside(s, p, starts, stop);
    ReadingSteps(s, p, starts, stop);
    if p == |s| || Undecided(s, p) {
    } else if FrameAt(s, p) {
      ReadingIsRead(s, FrameEnd(s, p), starts[1..], stop);
    } else {
      ReadingIsRead(s, p + 1, starts, stop);
    }
  }

  lemma ReadingInside(s: seq<byte>, p: nat, starts: seq<nat>, stop: nat)
    requires IsReading(s, p, starts, stop)
    ensures p <= stop <= |s|
  {
  }

  lemma FrameDecided(s: seq<byte>, p: nat)
    ensures FrameAt(s, p) ==> !Undecided(s, p)
  {
  }

  lemma PacketsFirst(s: seq<byte>, p: nat, starts: seq<nat>)
    requires FrameAt(s, p) && forall i :: 0 <= i < |starts| ==> FrameAt(s, starts[i])
    ensures forall i :: 0 <= i < |[p] + starts| ==> FrameAt(s, ([p] + starts)[i])
    ensures PacketsAt(s, [p] + starts) == [PacketAt(s, p)] + PacketsAt(s, starts)
  {
    hide FrameAt, PacketAt;
    assert ([p] + starts)[1..] == starts;
  }

  lemma {:induction false} ParseFollowsReading(s: seq<byte>, p: nat)
    requires p <= |s|
    ensures var r := ReadFrom(s, p); ParseFrom(s, p) == Parsed(PacketsAt(s, r.starts), s[r.stop..])
    decreases |s| - p
  {
    hide FrameAt, Undecided, FrameEnd, PacketAt;
    if p == |s| || Undecided(s, p) {
    } else if FrameAt(s, p) {
      ParseFollowsReading(s, FrameEnd(s, p));
      PacketsFirst(s, p, ReadFrom(s, FrameEnd(s, p)).starts);
    } else {
      ParseFollowsReading(s, p + 1);
    }
  }

  /** Every stream has exactly one reading, and parsing is it: the messages, their order and the bytes kept. */
  lemma ParseIsTheReading(s: seq<byte>, starts: seq<nat>, stop: nat)
    ensures IsReading(s, 0, starts, stop) <==> ReadFrom(s, 0) == Reading(starts, stop)
    ensures IsReading(s, 0, starts, stop) ==> Parse(s) == Parsed(PacketsAt(s, starts), s[stop..])
  {
    ReadIsReading(s, 0);
    ParseFollowsReading(s, 0);
    if IsReading(s, 0, starts, stop) {
      ReadingIsRead(s, 0, starts, stop);
    }
  }
}
