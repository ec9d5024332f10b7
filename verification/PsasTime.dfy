/** The 48-bit big-endian nanosecond time carried by every message (src/utilities/utils_time.c). */
module PsasTime {
  import opened Bytes

  const NS_PER_SEC := 1_000_000_000

  /** A decoded timestamp. */
  function Decoded(stamp: seq<byte>): nat {
    FromBigEndian(stamp)
  }

  /** A timestamp whose difference from the start time is `ns` nanoseconds, possibly negative. */
  function Stamp(ns: int): (stamp: seq<byte>)
    ensures |stamp| == 6
  {
    BigEndian(ns % TWO_48, 6)
  }

  class TimeSpec {
    var tvSec: int
    var tvNsec: int

    constructor (sec: int, nsec: int)
      ensures tvSec == sec && tvNsec == nsec
    {
      tvSec, tvNsec := sec, nsec;
    }
  }

  class PsasClock {
    const startSec: int
    const startNsec: int

    constructor (sec: int, nsec: int)
      ensures startSec == sec && startNsec == nsec
    {
      startSec, startNsec := sec, nsec;
    }

    /** Nanoseconds from the start time to the time (sec, nsec). */
    function Elapsed(sec: int, nsec: int): int {
      (sec - startSec) * NS_PER_SEC + (nsec - startNsec)
    }

    /** Makes ts relative to the start time and writes its low 48 bits; the arithmetic is modulo 2^64. */
    method ToPsasTime(ts: TimeSpec, out: array<byte>)
      requires out.Length == 6
      modifies ts, out
      ensures ts.tvSec == old(ts.tvSec) - startSec && ts.tvNsec == old(ts.tvNsec) - startNsec
      ensures out[..] == Stamp(Elapsed(old(ts.tvSec), old(ts.tvNsec)))
    {
      ts.tvSec := ts.tvSec - startSec;
      ts.tvNsec := ts.tvNsec - startNsec;
      var now := WrappedNs(ts.tvSec, ts.tvNsec);

      out[0] := now / 0x100_0000_0000 % 256;
      out[1] := now / 0x1_0000_0000 % 256;
      out[2] := now / 0x100_0000 % 256;
      out[3] := now / 0x1_0000 % 256;
      out[4] := now / 0x100 % 256;
      out[5] := now % 256;
      SixBytes(now);
      assert out[..] == BigEndian(now, 6);
      WrapKeepsStamp(ts.tvSec, ts.tvNsec);
    }

    method FromPsasTime(input: seq<byte>) returns (time: nat)
      requires |input| == 6
      ensures time == Decoded(input)
      ensures time < TWO_48
    {
      time := input[0];
      time := time * 0x100 + input[1];
      time := time * 0x100 + input[2];
      time := time * 0x100 + input[3];
      time := time * 0x100 + input[4];
      time := time * 0x100 + input[5];
      SixDigits(input);
    }
  }

  /** `tv_nsec + (uint64_t) tv_sec * 1000000000` in 64-bit unsigned arithmetic. */
  function WrappedNs(sec: int, nsec: int): nat {
    (nsec + sec % TWO_64 * NS_PER_SEC) % TWO_64
  }

  /** The 64-bit wrap-arounds do not show in the 48 bits that are kept. */
  lemma WrapKeepsStamp(sec: int, nsec: int)
    ensures BigEndian(WrappedNs(sec, nsec), 6) == Stamp(sec * NS_PER_SEC + nsec)
  {
    var q := sec / TWO_64;
    var x := nsec + sec % TWO_64 * NS_PER_SEC;
    var now := x % TWO_64;
    var k := 0x1_0000 * (x / TWO_64) + 0x1_0000 * NS_PER_SEC * q;
    assert sec * NS_PER_SEC + nsec == TWO_48 * (now / TWO_48 + k) + now % TWO_48;
    DivModUnique(sec * NS_PER_SEC + nsec, TWO_48, now / TWO_48 + k, now % TWO_48);
    Widths();
    EncodeModulo(now, 6);
  }

  lemma SixBytes(now: nat)
    ensures BigEndian(now, 6) == [now / 0x100_0000_0000 % 256, now / 0x1_0000_0000 % 256, now / 0x100_0000 % 256,
                                  now / 0x1_0000 % 256, now / 0x100 % 256, now % 256]
  {
    hide BigEndian;
    ThreeBytes(now);
    ThreeBytes(now / 0x100_0000);
    HighAndLow(now);
    assert now / 0x100_0000 / 0x1_0000 == now / 0x100_0000_0000;
    assert now / 0x100_0000 / 0x100 == now / 0x1_0000_0000;
  }

  lemma HighAndLow(now: nat)
    ensures BigEndian(now, 6) == BigEndian(now / 0x100_0000, 3) + BigEndian(now, 3)
  {
    hide BigEndian;
    var a := now / 0x100;
    var b := a / 0x100;
    assert b / 0x100 == now / 0x100_0000;
    OneByte(now, 5);
    OneByte(a, 4);
    OneByte(b, 3);
    OneByte(now, 2);
    OneByte(a, 1);
    OneByte(b, 0);
  }

  lemma OneByte(n: nat, width: nat)
    ensures BigEndian(n, width + 1) == BigEndian(n / 256, width) + [n % 256]
  {
  }

  lemma ThreeBytes(n: nat)
    ensures BigEndian(n, 3) == [n / 0x1_0000 % 256, n / 0x100 % 256, n % 256]
  {
    assert n / 0x100 / 0x100 == n / 0x1_0000;
    assert BigEndian(n / 0x1_0000, 1) == [n / 0x1_0000 % 256];
    assert BigEndian(n / 0x100, 2) == [n / 0x1_0000 % 256, n / 0x100 % 256];
  }

  lemma SixDigits(s: seq<byte>)
    requires |s| == 6
    ensures FromBigEndian(s) == U16(U16(U16(U16(U16(s[0], s[1]), s[2]), s[3]), s[4]), s[5])
    ensures FromBigEndian(s) < TWO_48
  {
    assert s[..5][..4] == s[..4] && s[..4][..3] == s[..3] && s[..3][..2] == s[..2];
    assert FromBigEndian(s[..5]) == U16(FromBigEndian(s[..4]), s[4]);
    assert FromBigEndian(s[..4]) == U16(FromBigEndian(s[..3]), s[3]);
    assert FromBigEndian(s[..3]) == U16(FromBigEndian(s[..2]), s[2]);
    TwoBytes(s[..2]);
    EncodeDecode(s);
    Widths();
  }

  /** A time survives encoding modulo 2^48, for every elapsed time including negative ones. */
  lemma DecodeStamp(ns: int)
    ensures Decoded(Stamp(ns)) == ns % TWO_48
  {
    DecodeEncode(ns % TWO_48, 6);
    Widths();
  }

  lemma SameResidue(a: int, b: int, d: int)
    requires d > 0
    ensures a % d == b % d <==> (a - b) % d == 0
  {
    assert a == d * (a / d) + a % d && b == d * (b / d) + b % d;
    if a % d == b % d {
      assert a - b == d * (a / d - b / d) + 0;
      DivModUnique(a - b, d, a / d - b / d, 0);
    }
    if (a - b) % d == 0 {
      var k := (a - b) / d;
      assert a - b == d * k;
      assert a == d * (b / d + k) + b % d;
      DivModUnique(a, d, b / d + k, b % d);
    }
  }

  /** Two stamps are equal exactly when the times differ by a multiple of 2^48 ns. */
  lemma StampsAgree(a: int, b: int)
    ensures Stamp(a) == Stamp(b) <==> (a - b) % TWO_48 == 0
  {
    if a % TWO_48 == b % TWO_48 {
      assert Stamp(a) == Stamp(b);
    }
    hide Stamp, Decoded;
    DecodeStamp(a);
    DecodeStamp(b);
    SameResidue(a, b, TWO_48);
  }

  /** Decoded stamps order and subtract like the times they encode, exactly while neither wraps. */
  lemma ComparableWithinWindow(a: int, b: int)
    requires 0 <= a < TWO_48
    ensures 0 <= b < TWO_48 <==> Decoded(Stamp(b)) - Decoded(Stamp(a)) == b - a
  {
    DecodeStamp(a);
    DecodeStamp(b);
  }
}
