/**
 * The log's record format: a 12-byte header (ID, 48-bit time, big-endian length) followed by the data (src/logger.h).
 */
module LogFormat {
  import opened Bytes

  const HEADER_SIZE := 12

  datatype RawMessage = RawMessage(id: seq<byte>, timestamp: seq<byte>, data: seq<byte>)

  /** A message whose fields have the sizes the header gives them. */
  type Message = m: RawMessage | |m.id| == 4 && |m.timestamp| == 6 && |m.data| < TWO_16
    witness RawMessage([0, 0, 0, 0], [0, 0, 0, 0, 0, 0], [])

  datatype Option<+T> = None | Some(value: T)

  function Size(m: Message): nat {
    HEADER_SIZE + |m.data|
  }

  function Encode(m: Message): (bs: seq<byte>)
    ensures |bs| == Size(m)
  {
    m.id + m.timestamp + BigEndian(|m.data|, 2) + m.data
  }

  function EncodeAll(ms: seq<Message>): seq<byte> {
    if ms == [] then [] else EncodeAll(ms[..|ms| - 1]) + Encode(ms[|ms| - 1])
  }

  /** Reads a byte stream by its headers; None if it does not end with a record. */
  function DecodeAll(bs: seq<byte>): Option<seq<Message>>
    decreases |bs|
  {
    if bs == [] then Some([])
    else if |bs| < HEADER_SIZE then None
    else
      var n := U16(bs[10], bs[11]);
      if |bs| < HEADER_SIZE + n then None
      else
        var first: Message := RawMessage(bs[..4], bs[4..10], bs[HEADER_SIZE..HEADER_SIZE + n]);
        match DecodeAll(bs[HEADER_SIZE + n..])
        case None => None
        case Some(ms) => Some([first] + ms)
  }

  lemma EncodeAllSnoc(ms: seq<Message>, m: Message)
    ensures EncodeAll(ms + [m]) == EncodeAll(ms) + Encode(m)
  {
    hide Encode;
    assert (ms + [m])[..|ms|] == ms;
  }

  lemma Regroup(a: seq<Message>, b: seq<Message>)
    requires b != []
    ensures a + b == (a + b[..|b| - 1]) + [b[|b| - 1]]
  {
  }

  lemma {:induction false} EncodeAllConcat(a: seq<Message>, b: seq<Message>)
    ensures EncodeAll(a + b) == EncodeAll(a) + EncodeAll(b)
  {
    if b == [] {
      assert a + b == a;
    } else {
      hide EncodeAll, Encode;
      var k := |b| - 1;
      EncodeAllConcat(a, b[..k]);
      Regroup(a, b);
      EncodeAllSnoc(a + b[..k], b[k]);
      EncodeAllSnoc(b[..k], b[k]);
      assert b[..k] + [b[k]] == b;
      Associative(EncodeAll(a), EncodeAll(b[..k]), Encode(b[k]));
    }
  }

  lemma Associative(x: seq<byte>, y: seq<byte>, z: seq<byte>)
    ensures (x + y) + z == x + (y + z)
  {
  }

  lemma HeaderReads(m: Message, rest: seq<byte>)
    ensures var bs, n := Encode(m) + rest, |m.data|;
            && U16(bs[10], bs[11]) == n
            && bs[..4] == m.id && bs[4..10] == m.timestamp && bs[HEADER_SIZE..HEADER_SIZE + n] == m.data
            && bs[HEADER_SIZE + n..] == rest
  {
    var bs := Encode(m) + rest;
    var len := BigEndian(|m.data|, 2);
    assert bs[10] == len[0] && bs[11] == len[1] by {
      hide BigEndian;
    }
    TwoBytes(len);
    DecodeEncode(|m.data|, 2);
    Widths();
  }

  lemma DecodeFirst(m: Message, rest: seq<byte>)
    ensures DecodeAll(Encode(m) + rest) ==
            match DecodeAll(rest) case None => None case Some(ms) => Some([m] + ms)
  {
    hide Encode;
    HeaderReads(m, rest);
  }

  /** A stream of encoded messages decodes to exactly those messages. */
  lemma {:induction false} DecodeEncodeAll(ms: seq<Message>)
    ensures DecodeAll(EncodeAll(ms)) == Some(ms)
  {
    hide Encode;
    if ms != [] {
      var first, rest := ms[0], ms[1..];
      assert ms == [first] + rest;
      EncodeAllConcat([first], rest);
      EncodeAllSnoc([], first);
      assert [] + [first] == [first];
      assert EncodeAll([]) + Encode(first) == Encode(first);
      DecodeEncodeAll(rest);
      DecodeFirst(first, EncodeAll(rest));
    }
  }
}
