// Bytes and big-endian integers, shared by every module.

module Bytes {
  type byte = x: int | 0 <= x < 256

  /** `Zeros(n)` is n zero bytes. */
  function Zeros(n: nat): (s: seq<byte>)
    ensures |s| == n
  {
    seq(n, _ => 0)
  }

  function Pow256(n: nat): (p: nat)
    ensures p > 0
  {
    if n == 0 then 1 else 256 * Pow256(n - 1)
  }

  /** The low `width` bytes of `v`, most significant first: C's `(uint8_t)(v >> 8k)` and Rust's `to_be_bytes`. */
  function BigEndian(v: nat, width: nat): (s: seq<byte>)
    ensures |s| == width
  {
    if width == 0 then [] else BigEndian(v / 256, width - 1) + [v % 256]
  }

  /** The number that a big-endian byte string denotes. */
  function FromBigEndian(s: seq<byte>): nat {
    if s == [] then 0 else FromBigEndian(s[..|s| - 1]) * 256 + s[|s| - 1]
  }

  /** Reading back a fixed-width encoding gives the value reduced to that width. */
  lemma {:induction false} BigEndianRoundTrip(v: nat, width: nat)
    ensures FromBigEndian(BigEndian(v, width)) == v % Pow256(width)
  {
    if width != 0 {
      var s := BigEndian(v, width);
      BigEndianRoundTrip(v / 256, width - 1);
      assert s[..|s| - 1] == BigEndian(v / 256, width - 1);
      ModPeel(v, Pow256(width - 1));
    }
  }

  lemma ModPeel(v: nat, m: nat)
    requires m > 0
    ensures v / 256 % m * 256 + v % 256 == v % (256 * m)
  {
    var q, r := v / 256 / m, v / 256 % m;
    var low := r * 256 + v % 256;
    assert v / 256 == q * m + r;
    assert q * (256 * m) == 256 * (q * m);
    DivModUnique(v, 256 * m, q, low);
  }

  lemma DivModUnique(v: int, d: int, q: int, r: int)
    requires d > 0 && 0 <= r < d && v == q * d + r
    ensures v / d == q && v % d == r
  {
    var q', r' := v / d, v % d;
    assert v == d * q' + r';
    if q > q' {
      MulOrder(q' + 1, q, d);
    } else if q < q' {
      MulOrder(q + 1, q', d);
    }
  }

  lemma MulOrder(x: int, y: int, d: int)
    requires x <= y && d > 0
    ensures x * d <= y * d
  {
  }

  lemma {:induction false} FromBigEndianBound(s: seq<byte>)
    ensures FromBigEndian(s) < Pow256(|s|)
  {
    if s != [] {
      FromBigEndianBound(s[..|s| - 1]);
    }
  }

  /** The other direction: a byte string is the encoding of the number it denotes. */
  lemma {:induction false} FromBigEndianRoundTrip(s: seq<byte>)
    ensures BigEndian(FromBigEndian(s), |s|) == s
  {
    if s != [] {
      FromBigEndianRoundTrip(s[..|s| - 1]);
    }
  }

  /** Four bytes as a number, the first one most significant. */
  lemma FourBytes(b0: byte, b1: byte, b2: byte, b3: byte)
    ensures FromBigEndian([b0, b1, b2, b3]) == ((b0 * 256 + b1) * 256 + b2) * 256 + b3
  {
    assert [b0, b1, b2, b3][..3] == [b0, b1, b2] && [b0, b1, b2][..2] == [b0, b1] && [b0, b1][..1] == [b0];
    assert FromBigEndian([b0]) == b0;
    assert FromBigEndian([b0, b1]) == b0 * 256 + b1;
  }

  /** And back: the last of the bytes is the least significant. */
  lemma LastByte(v: nat, width: nat)
    requires width > 0
    ensures BigEndian(v, width)[width - 1] == v % 256 && BigEndian(v, width)[..width - 1] == BigEndian(v / 256, width - 1)
  {
  }
}
