/** Byte sequences, big-endian numbers and the XOR used by the GPS checksum: the vocabulary the other modules share. */
module Bytes {

  type byte = x: int | 0 <= x < 256

  const TWO_16 := 0x1_0000
  const TWO_32 := 0x1_0000_0000
  const TWO_48 := 0x1_0000_0000_0000
  const TWO_64 := 0x1_0000_0000_0000_0000

  // ---------------------------------------------------------------- big-endian numbers

  function Pow256(width: nat): (p: nat)
    ensures p > 0
  {
    if width == 0 then 1 else 256 * Pow256(width - 1)
  }

  /** The low `width` bytes of n, most significant first (htons, htonl, and the shifts of to_psas_time). */
  function BigEndian(n: nat, width: nat): (bs: seq<byte>)
    ensures |bs| == width
  {
    if width == 0 then [] else BigEndian(n / 256, width - 1) + [n % 256]
  }

  function FromBigEndian(bs: seq<byte>): nat {
    if bs == [] then 0 else 256 * FromBigEndian(bs[..|bs| - 1]) + bs[|bs| - 1]
  }

  lemma MulAtLeast(d: int, k: int)
    requires d >= 0 && k >= 1
    ensures d * k >= d
  {
    assert d * k == d * (k - 1) + d;
  }

  lemma DivModUnique(n: int, d: int, q: int, r: int)
    requires d > 0 && n == d * q + r && 0 <= r < d
    ensures n / d == q && n % d == r
  {
    var q', r' := n / d, n % d;
    assert n == d * q' + r';
    assert d * (q - q') == d * q - d * q' == r' - r;
    assert d * (q' - q) == r - r';
    if q > q' {
      MulAtLeast(d, q - q');
    } else if q < q' {
      MulAtLeast(d, q' - q);
    }
  }

  lemma NestedMod(n: nat, p: nat)
    requires p > 0
    ensures n % (256 * p) == 256 * (n / 256 % p) + n % 256
  {
    var q, r := n / 256 / p, n / 256 % p;
    assert n / 256 == p * q + r;
    assert 256 * (p * q) == (256 * p) * q;
    DivModUnique(n, 256 * p, q, 256 * r + n % 256);
  }

  /** Encoding keeps n modulo the field's width. */
  lemma {:induction false} DecodeEncode(n: nat, width: nat)
    ensures FromBigEndian(BigEndian(n, width)) == n % Pow256(width)
  {
    if width > 0 {
      var p := Pow256(width - 1);
      DecodeEncode(n / 256, width - 1);
      assert BigEndian(n, width)[..width - 1] == BigEndian(n / 256, width - 1);
      NestedMod(n, p);
    }
  }

  /** Every byte string is the encoding of the number it decodes to. */
  lemma {:induction false} EncodeDecode(bs: seq<byte>)
    ensures FromBigEndian(bs) < Pow256(|bs|)
    ensures BigEndian(FromBigEndian(bs), |bs|) == bs
  {
    if bs != [] {
      EncodeDecode(bs[..|bs| - 1]);
      assert bs == bs[..|bs| - 1] + [bs[|bs| - 1]];
    }
  }

  /** Only n modulo the field's width is encoded. */
  lemma EncodeModulo(n: nat, width: nat)
    ensures BigEndian(n % Pow256(width), width) == BigEndian(n, width)
  {
    DecodeEncode(n, width);
    EncodeDecode(BigEndian(n, width));
  }

  lemma Widths()
    ensures Pow256(1) == 256 && Pow256(2) == TWO_16 && Pow256(4) == TWO_32 && Pow256(6) == TWO_48
  {
    assert Pow256(3) == 256 * TWO_16;
    assert Pow256(5) == 256 * TWO_32;
  }

  /** The 16-bit number with the given high and low bytes. */
  function U16(hi: int, lo: int): int {
    256 * hi + lo
  }

  lemma TwoBytes(bs: seq<byte>)
    requires |bs| == 2
    ensures FromBigEndian(bs) == U16(bs[0], bs[1])
  {
    assert FromBigEndian(bs[..1]) == 256 * FromBigEndian(bs[..1][..0]) + bs[0];
  }

  // ---------------------------------------------------------------- exclusive or

  /** Bitwise exclusive or of two naturals. */
  function Xor(a: nat, b: nat): nat
    decreases a + b
  {
    if a == 0 && b == 0 then 0 else 2 * Xor(a / 2, b / 2) + (if a % 2 == b % 2 then 0 else 1)
  }

  lemma XorBits(a: nat, b: nat)
    ensures Xor(a, b) / 2 == Xor(a / 2, b / 2)
    ensures Xor(a, b) % 2 == if a % 2 == b % 2 then 0 else 1
  {
    if a == 0 && b == 0 {
      assert Xor(0, 0) == 0;
    }
  }

  lemma {:induction false} XorBelow(a: nat, b: nat, width: nat)
    requires a < Pow2(width) && b < Pow2(width)
    ensures Xor(a, b) < Pow2(width)
  {
    if width > 0 && !(a == 0 && b == 0) {
      XorBelow(a / 2, b / 2, width - 1);
    }
  }

  function Pow2(n: nat): (p: nat)
    ensures p > 0
  {
    if n == 0 then 1 else 2 * Pow2(n - 1)
  }

  function XorByte(a: byte, b: byte): byte {
    assert Pow2(8) == 256 by { assert Pow2(4) == 16; }
    XorBelow(a, b, 8);
    Xor(a, b)
  }

  /** The same operand on the left can be cancelled; a changed right operand changes the result. */
  lemma {:induction false} XorCancelLeft(a: nat, b: nat, c: nat)
    requires Xor(a, b) == Xor(a, c)
    ensures b == c
    decreases a + b + c
  {
    if !(a == 0 && b == 0 && c == 0) {
      XorBits(a, b);
      XorBits(a, c);
      XorCancelLeft(a / 2, b / 2, c / 2);
    }
  }

  lemma {:induction false} XorCommutes(a: nat, b: nat)
    ensures Xor(a, b) == Xor(b, a)
    decreases a + b
  {
    if !(a == 0 && b == 0) {
      XorCommutes(a / 2, b / 2);
    }
  }

  // ---------------------------------------------------------------- bits

  /** Bit k of a natural, the lowest being bit 0. */
  function Bit(n: nat, k: nat): (b: nat)
    ensures b <= 1
  {
    n / Pow2(k) % 2
  }

  lemma HigherBit(n: nat, k: nat)
    ensures Bit(n, k + 1) == Bit(n / 2, k)
    ensures Bit(n, 0) == n % 2
  {
    DivideTwice(n, Pow2(k));
  }

  lemma DivideTwice(n: nat, p: nat)
    requires p > 0
    ensures n / (2 * p) == n / 2 / p
  {
    var q, r := n / 2 / p, n / 2 % p;
    assert n / 2 == p * q + r;
    assert 2 * (p * q) == (2 * p) * q;
    DivModUnique(n, 2 * p, q, 2 * r + n % 2);
  }

  /** Each bit of the exclusive or is one where exactly one operand has it. */
  lemma {:induction false} XorBit(a: nat, b: nat, k: nat)
    ensures Bit(Xor(a, b), k) == (Bit(a, k) + Bit(b, k)) % 2
    decreases k
  {
    hide Bit;
    XorBits(a, b);
    if k == 0 {
      HigherBit(a, 0);
      HigherBit(b, 0);
      HigherBit(Xor(a, b), 0);
    } else {
      HigherBit(a, k - 1);
      HigherBit(b, k - 1);
      HigherBit(Xor(a, b), k - 1);
      XorBit(a / 2, b / 2, k - 1);
    }
  }

  /** A number is determined by its bits. */
  lemma {:induction false} SameBits(a: nat, b: nat, width: nat)
    requires a < Pow2(width) && b < Pow2(width) && forall k: nat :: k < width ==> Bit(a, k) == Bit(b, k)
    ensures a == b
    decreases width
  {
    hide Bit;
    if width > 0 {
      HigherBit(a, 0);
      HigherBit(b, 0);
      assert Bit(a, 0) == Bit(b, 0);
      forall k: nat | k < width - 1
        ensures Bit(a / 2, k) == Bit(b / 2, k)
      {
        HigherBit(a, k);
        HigherBit(b, k);
        assert Bit(a, k + 1) == Bit(b, k + 1);
      }
      SameBits(a / 2, b / 2, width - 1);
    }
  }
}
