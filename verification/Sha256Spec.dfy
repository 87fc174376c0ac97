// SHA-256 as FIPS 180-4 states it, on bytes.  No code of the repository is mentioned here.

module Sha256Spec {
  import opened Bytes

  /** A 32-bit word. */
  datatype Word = W32(bits: bv32)

  function U32(n: nat): Word
    requires n < 0x1_0000_0000
  {
    W32(n as bv32)
  }

  /** x is p^(1/3) * 2^32 rounded down. */
  predicate IsScaledCubeRoot(x: nat, p: nat) {
    x * x * x <= p * 0x1_00000000_00000000_00000000 < (x + 1) * (x + 1) * (x + 1)
  }

  /** x is p^(1/2) * 2^32 rounded down. */
  predicate IsScaledSquareRoot(x: nat, p: nat) {
    x * x <= p * 0x1_00000000_00000000 < (x + 1) * (x + 1)
  }

  type CubeRoot = e: (nat, nat) | IsScaledCubeRoot(e.1, e.0) witness (0, 0)

  type SquareRoot = e: (nat, nat) | IsScaledSquareRoot(e.1, e.0) witness (0, 0)

  function Cube(p: nat, x: nat): CubeRoot
    requires IsScaledCubeRoot(x, p)
  {
    (p, x)
  }

  function Square(p: nat, x: nat): SquareRoot
    requires IsScaledSquareRoot(x, p)
  {
    (p, x)
  }

  // Section 4.2.2: the constants are the fractional parts of the cube roots of the first 64 primes.  The type of the
  // table makes the verifier check every entry.
  const ROOTS_0_15: seq<CubeRoot> := [
    Cube(2, 0x1_428a2f98), Cube(3, 0x1_71374491), Cube(5, 0x1_b5c0fbcf), Cube(7, 0x1_e9b5dba5),
    Cube(11, 0x2_3956c25b), Cube(13, 0x2_59f111f1), Cube(17, 0x2_923f82a4), Cube(19, 0x2_ab1c5ed5),
    Cube(23, 0x2_d807aa98), Cube(29, 0x3_12835b01), Cube(31, 0x3_243185be), Cube(37, 0x3_550c7dc3),
    Cube(41, 0x3_72be5d74), Cube(43, 0x3_80deb1fe), Cube(47, 0x3_9bdc06a7), Cube(53, 0x3_c19bf174)]

  const ROOTS_16_31: seq<CubeRoot> := [
    Cube(59, 0x3_e49b69c1), Cube(61, 0x3_efbe4786), Cube(67, 0x4_0fc19dc6), Cube(71, 0x4_240ca1cc),
    Cube(73, 0x4_2de92c6f), Cube(79, 0x4_4a7484aa), Cube(83, 0x4_5cb0a9dc), Cube(89, 0x4_76f988da),
    Cube(97, 0x4_983e5152), Cube(101, 0x4_a831c66d), Cube(103, 0x4_b00327c8), Cube(107, 0x4_bf597fc7),
    Cube(109, 0x4_c6e00bf3), Cube(113, 0x4_d5a79147), Cube(127, 0x5_06ca6351), Cube(131, 0x5_14292967)]

  const ROOTS_32_47: seq<CubeRoot> := [
    Cube(137, 0x5_27b70a85), Cube(139, 0x5_2e1b2138), Cube(149, 0x5_4d2c6dfc), Cube(151, 0x5_53380d13),
    Cube(157, 0x5_650a7354), Cube(163, 0x5_766a0abb), Cube(167, 0x5_81c2c92e), Cube(173, 0x5_92722c85),
    Cube(179, 0x5_a2bfe8a1), Cube(181, 0x5_a81a664b), Cube(191, 0x5_c24b8b70), Cube(193, 0x5_c76c51a3),
    Cube(197, 0x5_d192e819), Cube(199, 0x5_d6990624), Cube(211, 0x5_f40e3585), Cube(223, 0x6_106aa070)]

  const ROOTS_48_63: seq<CubeRoot> := [
    Cube(227, 0x6_19a4c116), Cube(229, 0x6_1e376c08), Cube(233, 0x6_2748774c), Cube(239, 0x6_34b0bcb5),
    Cube(241, 0x6_391c0cb3), Cube(251, 0x6_4ed8aa4a), Cube(257, 0x6_5b9cca4f), Cube(263, 0x6_682e6ff3),
    Cube(269, 0x6_748f82ee), Cube(271, 0x6_78a5636f), Cube(277, 0x6_84c87814), Cube(281, 0x6_8cc70208),
    Cube(283, 0x6_90befffa), Cube(293, 0x6_a4506ceb), Cube(307, 0x6_bef9a3f7), Cube(311, 0x6_c67178f2)]

  const CUBE_ROOTS: seq<CubeRoot> := ROOTS_0_15 + ROOTS_16_31 + ROOTS_32_47 + ROOTS_48_63

  // Section 5.3.3: likewise with the square roots of the first eight primes.
  const SQUARE_ROOTS: seq<SquareRoot> := [
    Square(2, 0x1_6a09e667), Square(3, 0x1_bb67ae85), Square(5, 0x2_3c6ef372), Square(7, 0x2_a54ff53a),
    Square(11, 0x3_510e527f), Square(13, 0x3_9b05688c), Square(17, 0x4_1f83d9ab), Square(19, 0x4_5be0cd19)]

  /** The eight working variables of section 6.2, and the eight words of a hash value. */
  datatype Words = Words(a: Word, b: Word, c: Word, d: Word, e: Word, f: Word, g: Word, h: Word)

  function H0(): Words {
    Words(Root(0), Root(1), Root(2), Root(3), Root(4), Root(5), Root(6), Root(7))
  }

  function Root(i: nat): Word
    requires i < 8
  {
    U32(SQUARE_ROOTS[i].1 % 0x1_0000_0000)
  }

  function K(t: nat): Word
    requires t < 64
  {
    U32(CUBE_ROOTS[t].1 % 0x1_0000_0000)
  }

  /** Addition modulo 2^32, written + in the standard. */
  function Plus(x: Word, y: Word): Word { W32(Sum(x.bits, y.bits)) }

  function Sum(x: bv32, y: bv32): bv32 { x + y }

  function Plus4(x: Word, y: Word, z: Word, u: Word): Word { W32(Sum4(x.bits, y.bits, z.bits, u.bits)) }

  function Sum4(x: bv32, y: bv32, z: bv32, u: bv32): bv32 { x + y + z + u }

  // Section 4.1.2, first on the bits of a word and then on words.

  function ChBits(x: bv32, y: bv32, z: bv32): bv32 { (x & y) ^ (!x & z) }

  function MajBits(x: bv32, y: bv32, z: bv32): bv32 { (x & y) ^ (x & z) ^ (y & z) }

  function BigSigma0Bits(x: bv32): bv32 { x.RotateRight(2) ^ x.RotateRight(13) ^ x.RotateRight(22) }

  function BigSigma1Bits(x: bv32): bv32 { x.RotateRight(6) ^ x.RotateRight(11) ^ x.RotateRight(25) }

  function SmallSigma0Bits(x: bv32): bv32 { x.RotateRight(7) ^ x.RotateRight(18) ^ (x >> 3) }

  function SmallSigma1Bits(x: bv32): bv32 { x.RotateRight(17) ^ x.RotateRight(19) ^ (x >> 10) }

  function Ch(x: Word, y: Word, z: Word): Word { W32(ChBits(x.bits, y.bits, z.bits)) }

  function Maj(x: Word, y: Word, z: Word): Word { W32(MajBits(x.bits, y.bits, z.bits)) }

  function BigSigma0(x: Word): Word { W32(BigSigma0Bits(x.bits)) }

  function BigSigma1(x: Word): Word { W32(BigSigma1Bits(x.bits)) }

  function SmallSigma0(x: Word): Word { W32(SmallSigma0Bits(x.bits)) }

  function SmallSigma1(x: Word): Word { W32(SmallSigma1Bits(x.bits)) }

  /** Four bytes as a word, the leftmost byte most significant (section 3.1), by Horner's rule. */
  function WordOf(b0: byte, b1: byte, b2: byte, b3: byte): Word {
    W32(BitsOf(b0, b1, b2, b3))
  }

  function BitsOf(b0: byte, b1: byte, b2: byte, b3: byte): bv32 {
    Horner(Extend(b0), Extend(b1), Extend(b2), Extend(b3))
  }

  function Extend(b: byte): bv32 { b as bv32 }

  function Horner(w0: bv32, w1: bv32, w2: bv32, w3: bv32): bv32 { ((w0 * 256 + w1) * 256 + w2) * 256 + w3 }

  function LowByte(x: bv32): byte { (x & 0xff) as int }

  /** The reverse: a word as four bytes. */
  function WordBytes(w: Word): (s: seq<byte>)
    ensures |s| == 4
  {
    BytesOf(w.bits)
  }

  function BytesOf(x: bv32): (s: seq<byte>)
    ensures |s| == 4
  {
    [LowByte(x >> 24), LowByte(x >> 16), LowByte(x >> 8), LowByte(x)]
  }

  /** Section 6.2.2, step 1: the message schedule of a block. */
  function W(block: seq<byte>, t: nat): Word
    requires |block| == 64 && t < 64
  {
    if t < 16 then
      WordOf(block[4 * t], block[4 * t + 1], block[4 * t + 2], block[4 * t + 3])
    else
      Plus4(SmallSigma1(W(block, t - 2)), W(block, t - 7), SmallSigma0(W(block, t - 15)), W(block, t - 16))
  }

  /** Section 6.2.2, step 3: one round. */
  function Round(v: Words, k: Word, w: Word): Words {
    var t1 := Plus(Plus(Plus(Plus(v.h, BigSigma1(v.e)), Ch(v.e, v.f, v.g)), k), w);
    var t2 := Plus(BigSigma0(v.a), Maj(v.a, v.b, v.c));
    Words(Plus(t1, t2), v.a, v.b, v.c, Plus(v.d, t1), v.e, v.f, v.g)
  }

  function Rounds(v: Words, block: seq<byte>, t: nat): Words
    requires |block| == 64 && t <= 64
  {
    if t == 0 then v else Round(Rounds(v, block, t - 1), K(t - 1), W(block, t - 1))
  }

  /** Section 6.2.2, step 4. */
  function AddWords(v: Words, u: Words): Words {
    Words(Plus(v.a, u.a), Plus(v.b, u.b), Plus(v.c, u.c), Plus(v.d, u.d),
          Plus(v.e, u.e), Plus(v.f, u.f), Plus(v.g, u.g), Plus(v.h, u.h))
  }

  function Compress(h: Words, block: seq<byte>): Words
    requires |block| == 64
  {
    AddWords(Rounds(h, block, 64), h)
  }

  /** The hash value after the first n blocks of `s` (section 6.2.2, outer loop). */
  function HashBlocks(s: seq<byte>, n: nat): Words
    requires 64 * n <= |s|
  {
    if n == 0 then H0() else Compress(HashBlocks(s, n - 1), s[64 * n - 64..64 * n])
  }

  /** The number of zero bytes between 0x80 and the length (section 5.1.1). */
  function ZeroCount(n: nat): nat {
    (119 - n % 64) % 64
  }

  /** What section 5.1.1 appends to a message of n bytes.  The standard stops at n = 2^61, where the length no longer
      fits in 64 bits; here it is cut to 64 bits. */
  function Suffix(n: nat): (s: seq<byte>)
    ensures |s| == 64 * BlockCount(n) - n
  {
    PaddedSize(n);
    [0x80] + Zeros(ZeroCount(n)) + BigEndian(8 * n, 8)
  }

  function Pad(m: seq<byte>): (s: seq<byte>)
    ensures |s| == 64 * BlockCount(|m|)
  {
    m + Suffix(|m|)
  }

  /** Section 6.2.2, the final concatenation. */
  function Output(v: Words): (s: seq<byte>)
    ensures |s| == 32
  {
    WordBytes(v.a) + WordBytes(v.b) + WordBytes(v.c) + WordBytes(v.d) +
    WordBytes(v.e) + WordBytes(v.f) + WordBytes(v.g) + WordBytes(v.h)
  }

  function BlockCount(n: nat): nat {
    (n + 8) / 64 + 1
  }

  function Hash(m: seq<byte>): (s: seq<byte>)
    ensures |s| == 32
  {
    Output(HashBlocks(Pad(m), BlockCount(|m|)))
  }

  lemma ZeroCountCases(k: nat, d: nat)
    requires d < 64
    ensures ZeroCount(64 * k + d) == if d < 56 then 55 - d else 119 - d
  {
  }

  /** The zero count is the smallest solution of `n + 1 + z = 56 (mod 64)`, section 5.1.1 in bytes. */
  lemma ZeroCountIsLeast(n: nat, z: nat)
    ensures (n + 1 + ZeroCount(n)) % 64 == 56
    ensures (n + 1 + z) % 64 == 56 ==> ZeroCount(n) <= z
  {
    hide ZeroCount;
    var k, d := n / 64, n % 64;
    assert n == 64 * k + d;
    ZeroCountCases(k, d);
    Residue(k, d + 1 + ZeroCount(n));
    Residue(k, d + 1 + z);
  }

  lemma Residue(k: nat, x: nat)
    ensures (64 * k + x) % 64 == x % 64
  {
  }

  lemma PaddedSize(n: nat)
    ensures n + 1 + ZeroCount(n) + 8 == 64 * BlockCount(n)
  {
    var q, r := n / 64, n % 64;
    assert n == 64 * q + r;
  }

  lemma Pow256Of8()
    ensures Pow256(8) == 0x1_0000_0000_0000_0000
  {
    assert Pow256(2) == 0x1_0000;
    assert Pow256(4) == 0x1_0000_0000;
    assert Pow256(6) == 0x1_0000_0000_0000;
  }

  lemma CutTo64Bits(n: nat)
    ensures 8 * n % 0x1_0000_0000_0000_0000 == 8 * n <==> n < 0x2000_0000_0000_0000
  {
  }

  /** The length field tells the truth exactly for the messages the standard covers. */
  lemma LengthFieldExact(m: seq<byte>)
    ensures FromBigEndian(Pad(m)[|Pad(m)| - 8..]) == 8 * |m| <==> |m| < 0x2000_0000_0000_0000
  {
    var p, len := Pad(m), BigEndian(8 * |m|, 8);
    assert p[|p| - 8..] == Suffix(|m|)[|Suffix(|m|)| - 8..] == len;
    BigEndianRoundTrip(8 * |m|, 8);
    Pow256Of8();
    CutTo64Bits(|m|);
  }

  /** On those messages padding is injective. */
  lemma PadInjective(m: seq<byte>, m': seq<byte>)
    requires |m| < 0x2000_0000_0000_0000 && |m'| < 0x2000_0000_0000_0000
    requires Pad(m) == Pad(m')
    ensures m == m'
  {
    LengthFieldExact(m);
    LengthFieldExact(m');
    assert m == Pad(m)[..|m|];
    assert m' == Pad(m')[..|m'|];
  }

  /** The first n hash values depend on the first n blocks only. */
  lemma {:induction false} HashBlocksPrefix(s: seq<byte>, t: seq<byte>, n: nat)
    requires 64 * n <= |s|
    ensures HashBlocks(s + t, n) == HashBlocks(s, n)
  {
    hide Compress;
    if n != 0 {
      HashBlocksPrefix(s, t, n - 1);
      SlicePrefix(s, t, 64 * n - 64, 64 * n);
    }
  }

  lemma SlicePrefix<T>(s: seq<T>, t: seq<T>, i: nat, j: nat)
    requires i <= j <= |s|
    ensures (s + t)[i..j] == s[i..j]
  {
  }

  lemma HashNextBlock(s: seq<byte>, n: nat)
    requires 64 * n + 64 <= |s|
    ensures HashBlocks(s, n + 1) == Compress(HashBlocks(s, n), s[64 * n..64 * n + 64])
  {
    hide Compress;
  }
}
