// A value of the specification, step by step: the SHA-256 of the three bytes "abc", the first example published with
// FIPS 180-4.  It fixes what no law could: rotation counts, the order of additions and bytes, the padding byte.

module Sha256Example {
  import opened Bytes
  import opened Sha256Spec
  import opened Sha256

  /** The bits of the eight working variables. */
  datatype Bits = Bits(a: bv32, b: bv32, c: bv32, d: bv32, e: bv32, f: bv32, g: bv32, h: bv32)

  function Lift(s: Bits): Words {
    Words(W32(s.a), W32(s.b), W32(s.c), W32(s.d), W32(s.e), W32(s.f), W32(s.g), W32(s.h))
  }

  const ABC: seq<byte> := [0x61, 0x62, 0x63]

  // ---------- Words whose bits are given ----------

  lemma PlusOf(x: bv32, y: bv32)
    ensures Plus(W32(x), W32(y)) == W32(Sum(x, y))
  {
    hide Sum;
  }

  lemma Plus4Of(x: bv32, y: bv32, z: bv32, u: bv32)
    ensures Plus4(W32(x), W32(y), W32(z), W32(u)) == W32(Sum4(x, y, z, u))
  {
    hide Sum4;
  }

  lemma SmallSigmaOf(x: bv32, y: bv32)
    ensures SmallSigma0(W32(x)) == W32(SmallSigma0Bits(x)) && SmallSigma1(W32(y)) == W32(SmallSigma1Bits(y))
  {
    hide SmallSigma0Bits, SmallSigma1Bits;
  }

  lemma BigSigmaOf(x: bv32, y: bv32)
    ensures BigSigma0(W32(x)) == W32(BigSigma0Bits(x)) && BigSigma1(W32(y)) == W32(BigSigma1Bits(y))
  {
    hide BigSigma0Bits, BigSigma1Bits;
  }

  lemma ChOf(x: bv32, y: bv32, z: bv32)
    ensures Ch(W32(x), W32(y), W32(z)) == W32(ChBits(x, y, z))
  {
    hide ChBits;
  }

  lemma MajOf(x: bv32, y: bv32, z: bv32)
    ensures Maj(W32(x), W32(y), W32(z)) == W32(MajBits(x, y, z))
  {
    hide MajBits;
  }

  function NextBits(a: bv32, b: bv32, c: bv32, d: bv32): bv32 {
    Sum4(SmallSigma1Bits(a), b, SmallSigma0Bits(c), d)
  }

  lemma NextOf(a: bv32, b: bv32, c: bv32, d: bv32)
    ensures Plus4(SmallSigma1(W32(a)), W32(b), SmallSigma0(W32(c)), W32(d)) == W32(NextBits(a, b, c, d))
  {
    hide SmallSigma0, SmallSigma1, SmallSigma0Bits, SmallSigma1Bits, Plus4, Sum4;
    SmallSigmaOf(c, a);
    Plus4Of(SmallSigma1Bits(a), b, SmallSigma0Bits(c), d);
  }

  function T1(h: bv32, e: bv32, f: bv32, g: bv32, k: bv32, w: bv32): bv32 {
    Sum(Sum(Sum(Sum(h, BigSigma1Bits(e)), ChBits(e, f, g)), k), w)
  }

  function T2(a: bv32, b: bv32, c: bv32): bv32 {
    Sum(BigSigma0Bits(a), MajBits(a, b, c))
  }

  lemma T1Of(h: bv32, e: bv32, f: bv32, g: bv32, k: bv32, w: bv32)
    ensures Plus(Plus(Plus(Plus(W32(h), BigSigma1(W32(e))), Ch(W32(e), W32(f), W32(g))), W32(k)), W32(w)) ==
            W32(T1(h, e, f, g, k, w))
  {
    hide Plus, BigSigma1, Ch, BigSigma1Bits, ChBits, Sum;
    BigSigmaOf(e, e);
    ChOf(e, f, g);
    PlusOf(h, BigSigma1Bits(e));
    PlusOf(Sum(h, BigSigma1Bits(e)), ChBits(e, f, g));
    PlusOf(Sum(Sum(h, BigSigma1Bits(e)), ChBits(e, f, g)), k);
    PlusOf(Sum(Sum(Sum(h, BigSigma1Bits(e)), ChBits(e, f, g)), k), w);
  }

  lemma T2Of(a: bv32, b: bv32, c: bv32)
    ensures Plus(BigSigma0(W32(a)), Maj(W32(a), W32(b), W32(c))) == W32(T2(a, b, c))
  {
    hide Plus, BigSigma0, Maj, BigSigma0Bits, MajBits, Sum;
    BigSigmaOf(a, a);
    MajOf(a, b, c);
    PlusOf(BigSigma0Bits(a), MajBits(a, b, c));
  }

  function RoundBits(s: Bits, k: bv32, w: bv32): Bits {
    var t1 := T1(s.h, s.e, s.f, s.g, k, w);
    Bits(Sum(t1, T2(s.a, s.b, s.c)), s.a, s.b, s.c, Sum(s.d, t1), s.e, s.f, s.g)
  }

  lemma RoundOf(s: Bits, k: bv32, w: bv32)
    ensures Round(Lift(s), W32(k), W32(w)) == Lift(RoundBits(s, k, w))
  {
    hide Plus, BigSigma0, BigSigma1, Ch, Maj, T1, T2, Sum;
    T1Of(s.h, s.e, s.f, s.g, k, w);
    T2Of(s.a, s.b, s.c);
    PlusOf(T1(s.h, s.e, s.f, s.g, k, w), T2(s.a, s.b, s.c));
    PlusOf(s.d, T1(s.h, s.e, s.f, s.g, k, w));
  }

  // ---------- The message schedule ----------

  /** The one padded block. */
  function Block(): (b: seq<byte>)
    ensures |b| == 64
  {
    ABC + [0x80] + Zeros(59) + [24]
  }

  /** The schedule of this block. */
  function Listed(t: nat): bv32
    requires t < 64
  {
    match t
    case 0 => 0x61626380 case 1 => 0x00000000 case 2 => 0x00000000 case 3 => 0x00000000
    case 4 => 0x00000000 case 5 => 0x00000000 case 6 => 0x00000000 case 7 => 0x00000000
    case 8 => 0x00000000 case 9 => 0x00000000 case 10 => 0x00000000 case 11 => 0x00000000
    case 12 => 0x00000000 case 13 => 0x00000000 case 14 => 0x00000000 case 15 => 0x00000018
    case 16 => 0x61626380 case 17 => 0x000f0000 case 18 => 0x7da86405 case 19 => 0x600003c6
    case 20 => 0x3e9d7b78 case 21 => 0x0183fc00 case 22 => 0x12dcbfdb case 23 => 0xe2e2c38e
    case 24 => 0xc8215c1a case 25 => 0xb73679a2 case 26 => 0xe5bc3909 case 27 => 0x32663c5b
    case 28 => 0x9d209d67 case 29 => 0xec8726cb case 30 => 0x702138a4 case 31 => 0xd3b7973b
    case 32 => 0x93f5997f case 33 => 0x3b68ba73 case 34 => 0xaff4ffc1 case 35 => 0xf10a5c62
    case 36 => 0x0a8b3996 case 37 => 0x72af830a case 38 => 0x9409e33e case 39 => 0x24641522
    case 40 => 0x9f47bf94 case 41 => 0xf0a64f5a case 42 => 0x3e246a79 case 43 => 0x27333ba3
    case 44 => 0x0c4763f2 case 45 => 0x840abf27 case 46 => 0x7a290d5d case 47 => 0x065c43da
    case 48 => 0xfb3e89cb case 49 => 0xcc7617db case 50 => 0xb9e66c34 case 51 => 0xa9993667
    case 52 => 0x84badedd case 53 => 0xc21462bc case 54 => 0x1487472c case 55 => 0xb20f7a99
    case 56 => 0xef57b9cd case 57 => 0xebe6b238 case 58 => 0x9fe3095e case 59 => 0x78bc8d4b
    case 60 => 0xa43fcf15 case 61 => 0x668b2ff8 case 62 => 0xeeaba2cc case _ => 0x12b1edeb
  }

  lemma BlockBytes(t: nat)
    requires t < 16
    ensures
      var b := Block();
      [b[4 * t], b[4 * t + 1], b[4 * t + 2], b[4 * t + 3]] ==
      if t == 0 then [0x61, 0x62, 0x63, 0x80] else if t == 15 then [0, 0, 0, 24] else [0, 0, 0, 0]
  {
  }

  lemma ThreeWords()
    ensures WordOf(0x61, 0x62, 0x63, 0x80) == W32(0x61626380)
    ensures WordOf(0, 0, 0, 0) == W32(0)
    ensures WordOf(0, 0, 0, 24) == W32(24)
  {
  }

  lemma ListedStart(t: nat)
    requires t < 16
    ensures Listed(t) == if t == 0 then 0x61626380 else if t == 15 then 24 else 0
  {
  }

  lemma StartOfSchedule(t: nat)
    requires t < 16
    ensures W(Block(), t) == W32(Listed(t))
  {
    hide W, WordOf, Listed, Block;
    FirstWords(Block(), t);
    BlockBytes(t);
    ThreeWords();
    ListedStart(t);
    SameFour(Block()[4 * t], Block()[4 * t + 1], Block()[4 * t + 2], Block()[4 * t + 3], t);
  }

  lemma SameFour(b0: byte, b1: byte, b2: byte, b3: byte, t: nat)
    requires t < 16
    requires [b0, b1, b2, b3] ==
      if t == 0 then [0x61, 0x62, 0x63, 0x80] else if t == 15 then [0, 0, 0, 24] else [0, 0, 0, 0]
    ensures WordOf(b0, b1, b2, b3) == W32(Listed(t))
  {
    hide WordOf, Listed;
    var s := [b0, b1, b2, b3];
    assert b0 == s[0] && b1 == s[1] && b2 == s[2] && b3 == s[3];
    ThreeWords();
    ListedStart(t);
  }

  lemma Listed16(t: nat)
    requires 16 <= t < 24
    ensures Listed(t) == NextBits(Listed(t - 2), Listed(t - 7), Listed(t - 15), Listed(t - 16))
  {
  }

  lemma Listed24(t: nat)
    requires 24 <= t < 32
    ensures Listed(t) == NextBits(Listed(t - 2), Listed(t - 7), Listed(t - 15), Listed(t - 16))
  {
  }

  lemma Listed32(t: nat)
    requires 32 <= t < 40
    ensures Listed(t) == NextBits(Listed(t - 2), Listed(t - 7), Listed(t - 15), Listed(t - 16))
  {
  }

  lemma Listed40(t: nat)
    requires 40 <= t < 48
    ensures Listed(t) == NextBits(Listed(t - 2), Listed(t - 7), Listed(t - 15), Listed(t - 16))
  {
  }

  lemma Listed48(t: nat)
    requires 48 <= t < 56
    ensures Listed(t) == NextBits(Listed(t - 2), Listed(t - 7), Listed(t - 15), Listed(t - 16))
  {
  }

  lemma Listed56(t: nat)
    requires 56 <= t < 64
    ensures Listed(t) == NextBits(Listed(t - 2), Listed(t - 7), Listed(t - 15), Listed(t - 16))
  {
  }

  lemma ListedNext(t: nat)
    requires 16 <= t < 64
    ensures Listed(t) == NextBits(Listed(t - 2), Listed(t - 7), Listed(t - 15), Listed(t - 16))
  {
    hide Listed, NextBits;
    if t < 24 {
      Listed16(t);
    } else if t < 32 {
      Listed24(t);
    } else if t < 40 {
      Listed32(t);
    } else if t < 48 {
      Listed40(t);
    } else if t < 56 {
      Listed48(t);
    } else {
      Listed56(t);
    }
  }

  lemma {:induction false} ScheduleIsListed(t: nat)
    requires t < 64
    ensures W(Block(), t) == W32(Listed(t))
  {
    hide W, Block, Listed, NextBits, Plus4, SmallSigma0, SmallSigma1;
    if t < 16 {
      StartOfSchedule(t);
    } else {
      ScheduleIsListed(t - 2);
      ScheduleIsListed(t - 7);
      ScheduleIsListed(t - 15);
      ScheduleIsListed(t - 16);
      NextWord(Block(), t);
      NextOf(Listed(t - 2), Listed(t - 7), Listed(t - 15), Listed(t - 16));
      ListedNext(t);
    }
  }

  // ---------- The rounds ----------

  /** The constants as bits. */
  function Constant(t: nat): bv32
    requires t < 64
  {
    match t
    case 0 => 0x428a2f98 case 1 => 0x71374491 case 2 => 0xb5c0fbcf case 3 => 0xe9b5dba5
    case 4 => 0x3956c25b case 5 => 0x59f111f1 case 6 => 0x923f82a4 case 7 => 0xab1c5ed5
    case 8 => 0xd807aa98 case 9 => 0x12835b01 case 10 => 0x243185be case 11 => 0x550c7dc3
    case 12 => 0x72be5d74 case 13 => 0x80deb1fe case 14 => 0x9bdc06a7 case 15 => 0xc19bf174
    case 16 => 0xe49b69c1 case 17 => 0xefbe4786 case 18 => 0x0fc19dc6 case 19 => 0x240ca1cc
    case 20 => 0x2de92c6f case 21 => 0x4a7484aa case 22 => 0x5cb0a9dc case 23 => 0x76f988da
    case 24 => 0x983e5152 case 25 => 0xa831c66d case 26 => 0xb00327c8 case 27 => 0xbf597fc7
    case 28 => 0xc6e00bf3 case 29 => 0xd5a79147 case 30 => 0x06ca6351 case 31 => 0x14292967
    case 32 => 0x27b70a85 case 33 => 0x2e1b2138 case 34 => 0x4d2c6dfc case 35 => 0x53380d13
    case 36 => 0x650a7354 case 37 => 0x766a0abb case 38 => 0x81c2c92e case 39 => 0x92722c85
    case 40 => 0xa2bfe8a1 case 41 => 0xa81a664b case 42 => 0xc24b8b70 case 43 => 0xc76c51a3
    case 44 => 0xd192e819 case 45 => 0xd6990624 case 46 => 0xf40e3585 case 47 => 0x106aa070
    case 48 => 0x19a4c116 case 49 => 0x1e376c08 case 50 => 0x2748774c case 51 => 0x34b0bcb5
    case 52 => 0x391c0cb3 case 53 => 0x4ed8aa4a case 54 => 0x5b9cca4f case 55 => 0x682e6ff3
    case 56 => 0x748f82ee case 57 => 0x78a5636f case 58 => 0x84c87814 case 59 => 0x8cc70208
    case 60 => 0x90befffa case 61 => 0xa4506ceb case 62 => 0xbef9a3f7 case _ => 0xc67178f2
  }

  lemma BitsOfNumber(n: nat, x: bv32)
    requires n == x as int
    ensures n < 0x1_0000_0000 && U32(n) == W32(x)
  {
  }

  lemma Constants0(t: nat)
    requires t < 8
    ensures TABLE_0_15[t] == W32(Constant(t))
  {
    hide U32;
    BitsOfNumber(0x428a2f98, 0x428a2f98);
    BitsOfNumber(0x71374491, 0x71374491);
    BitsOfNumber(0xb5c0fbcf, 0xb5c0fbcf);
    BitsOfNumber(0xe9b5dba5, 0xe9b5dba5);
    BitsOfNumber(0x3956c25b, 0x3956c25b);
    BitsOfNumber(0x59f111f1, 0x59f111f1);
    BitsOfNumber(0x923f82a4, 0x923f82a4);
    BitsOfNumber(0xab1c5ed5, 0xab1c5ed5);
  }

  lemma Constants8(t: nat)
    requires 8 <= t < 16
    ensures TABLE_0_15[t] == W32(Constant(t))
  {
    hide U32;
    BitsOfNumber(0xd807aa98, 0xd807aa98);
    BitsOfNumber(0x12835b01, 0x12835b01);
    BitsOfNumber(0x243185be, 0x243185be);
    BitsOfNumber(0x550c7dc3, 0x550c7dc3);
    BitsOfNumber(0x72be5d74, 0x72be5d74);
    BitsOfNumber(0x80deb1fe, 0x80deb1fe);
    BitsOfNumber(0x9bdc06a7, 0x9bdc06a7);
    BitsOfNumber(0xc19bf174, 0xc19bf174);
  }

  lemma Constants16(t: nat)
    requires 16 <= t < 24
    ensures TABLE_16_31[t - 16] == W32(Constant(t))
  {
    hide U32;
    BitsOfNumber(0xe49b69c1, 0xe49b69c1);
    BitsOfNumber(0xefbe4786, 0xefbe4786);
    BitsOfNumber(0x0fc19dc6, 0x0fc19dc6);
    BitsOfNumber(0x240ca1cc, 0x240ca1cc);
    BitsOfNumber(0x2de92c6f, 0x2de92c6f);
    BitsOfNumber(0x4a7484aa, 0x4a7484aa);
    BitsOfNumber(0x5cb0a9dc, 0x5cb0a9dc);
    BitsOfNumber(0x76f988da, 0x76f988da);
  }

  lemma Constants24(t: nat)
    requires 24 <= t < 32
    ensures TABLE_16_31[t - 16] == W32(Constant(t))
  {
    hide U32;
    BitsOfNumber(0x983e5152, 0x983e5152);
    BitsOfNumber(0xa831c66d, 0xa831c66d);
    BitsOfNumber(0xb00327c8, 0xb00327c8);
    BitsOfNumber(0xbf597fc7, 0xbf597fc7);
    BitsOfNumber(0xc6e00bf3, 0xc6e00bf3);
    BitsOfNumber(0xd5a79147, 0xd5a79147);
    BitsOfNumber(0x06ca6351, 0x06ca6351);
    BitsOfNumber(0x14292967, 0x14292967);
  }

  lemma Constants32(t: nat)
    requires 32 <= t < 40
    ensures TABLE_32_47[t - 32] == W32(Constant(t))
  {
    hide U32;
    BitsOfNumber(0x27b70a85, 0x27b70a85);
    BitsOfNumber(0x2e1b2138, 0x2e1b2138);
    BitsOfNumber(0x4d2c6dfc, 0x4d2c6dfc);
    BitsOfNumber(0x53380d13, 0x53380d13);
    BitsOfNumber(0x650a7354, 0x650a7354);
    BitsOfNumber(0x766a0abb, 0x766a0abb);
    BitsOfNumber(0x81c2c92e, 0x81c2c92e);
    BitsOfNumber(0x92722c85, 0x92722c85);
  }

  lemma Constants40(t: nat)
    requires 40 <= t < 48
    ensures TABLE_32_47[t - 32] == W32(Constant(t))
  {
    hide U32;
    BitsOfNumber(0xa2bfe8a1, 0xa2bfe8a1);
    BitsOfNumber(0xa81a664b, 0xa81a664b);
    BitsOfNumber(0xc24b8b70, 0xc24b8b70);
    BitsOfNumber(0xc76c51a3, 0xc76c51a3);
    BitsOfNumber(0xd192e819, 0xd192e819);
    BitsOfNumber(0xd6990624, 0xd6990624);
    BitsOfNumber(0xf40e3585, 0xf40e3585);
    BitsOfNumber(0x106aa070, 0x106aa070);
  }

  lemma Constants48(t: nat)
    requires 48 <= t < 56
    ensures TABLE_48_63[t - 48] == W32(Constant(t))
  {
    hide U32;
    BitsOfNumber(0x19a4c116, 0x19a4c116);
    BitsOfNumber(0x1e376c08, 0x1e376c08);
    BitsOfNumber(0x2748774c, 0x2748774c);
    BitsOfNumber(0x34b0bcb5, 0x34b0bcb5);
    BitsOfNumber(0x391c0cb3, 0x391c0cb3);
    BitsOfNumber(0x4ed8aa4a, 0x4ed8aa4a);
    BitsOfNumber(0x5b9cca4f, 0x5b9cca4f);
    BitsOfNumber(0x682e6ff3, 0x682e6ff3);
  }

  lemma Constants56(t: nat)
    requires 56 <= t < 64
    ensures TABLE_48_63[t - 48] == W32(Constant(t))
  {
    hide U32;
    BitsOfNumber(0x748f82ee, 0x748f82ee);
    BitsOfNumber(0x78a5636f, 0x78a5636f);
    BitsOfNumber(0x84c87814, 0x84c87814);
    BitsOfNumber(0x8cc70208, 0x8cc70208);
    BitsOfNumber(0x90befffa, 0x90befffa);
    BitsOfNumber(0xa4506ceb, 0xa4506ceb);
    BitsOfNumber(0xbef9a3f7, 0xbef9a3f7);
    BitsOfNumber(0xc67178f2, 0xc67178f2);
  }

  lemma ConstantIsK(t: nat)
    requires t < 64
    ensures K(t) == W32(Constant(t))
  {
    hide K, Constant, U32;
    TableIsK(t);
    if t < 16 {
      assert TABLE[t] == TABLE_0_15[t];
    } else if t < 32 {
      assert TABLE[t] == TABLE_16_31[t - 16];
    } else if t < 48 {
      assert TABLE[t] == TABLE_32_47[t - 32];
    } else {
      assert TABLE[t] == TABLE_48_63[t - 48];
    }
    if t < 8 {
      Constants0(t);
    } else if t < 16 {
      Constants8(t);
    } else if t < 24 {
      Constants16(t);
    } else if t < 32 {
      Constants24(t);
    } else if t < 40 {
      Constants32(t);
    } else if t < 48 {
      Constants40(t);
    } else if t < 56 {
      Constants48(t);
    } else {
      Constants56(t);
    }
  }

  /** The values of a after each round, preceded by those that d, c, b start with. */
  function ValueA(t: nat): bv32
    requires t <= 67
  {
    match t
    case 0 => 0xa54ff53a case 1 => 0x3c6ef372 case 2 => 0xbb67ae85 case 3 => 0x6a09e667
    case 4 => 0x5d6aebcd case 5 => 0x5a6ad9ad case 6 => 0xc8c347a7 case 7 => 0xd550f666
    case 8 => 0x04409a6a case 9 => 0x2b4209f5 case 10 => 0xe5030380 case 11 => 0x85a07b5f
    case 12 => 0x8e04ecb9 case 13 => 0x8c87346b case 14 => 0x4798a3f4 case 15 => 0xf71fc5a9
    case 16 => 0x87912990 case 17 => 0xd932eb16 case 18 => 0xc0645fde case 19 => 0xb0fa238e
    case 20 => 0x21da9a9b case 21 => 0xc2fbd9d1 case 22 => 0xfe777bbf case 23 => 0xe1f20c33
    case 24 => 0x9dc68b63 case 25 => 0xc2606d6d case 26 => 0xa7a3623f case 27 => 0xc5d53d8d
    case 28 => 0x1c2c2838 case 29 => 0xcde8037d case 30 => 0xb62ec4bc case 31 => 0x77d37528
    case 32 => 0x363482c9 case 33 => 0xa0060b30 case 34 => 0xea992a22 case 35 => 0x73b33bf5
    case 36 => 0x98e12507 case 37 => 0xfe604df5 case 38 => 0xa9a7738c case 39 => 0x65a0cfe4
    case 40 => 0x41a65cb1 case 41 => 0x34df1604 case 42 => 0x6dc57a8a case 43 => 0x79ea687a
    case 44 => 0xd6670766 case 45 => 0xdf46652f case 46 => 0x17aa0dfe case 47 => 0x9d4baf93
    case 48 => 0x26628815 case 49 => 0x72ab4b91 case 50 => 0xa14c14b0 case 51 => 0x4172328d
    case 52 => 0x05757ceb case 53 => 0xf11bfaa8 case 54 => 0x7a0508a1 case 55 => 0x886e7a22
    case 56 => 0x101fd28f case 57 => 0xf5702fdb case 58 => 0x3ec45cdb case 59 => 0x38cc9913
    case 60 => 0xfcd1887b case 61 => 0xc062d46f case 62 => 0xffb70472 case 63 => 0xb6ae8fff
    case 64 => 0xb85e2ce9 case 65 => 0x04d24d6c case 66 => 0xd39a2165 case _ => 0x506e3058
  }

  /** The first sum of each round. */
  function ValueT(t: nat): bv32
    requires t < 64
  {
    match t
    case 0 => 0x54da50e8 case 1 => 0x3c5f8617 case 2 => 0x3dc18b66 case 3 => 0xbad621e9
    case 4 => 0xe642b678 case 5 => 0x16d78700 case 6 => 0xd2645c5a case 7 => 0x37148413
    case 8 => 0x2e899322 case 9 => 0xf1871ba1 case 10 => 0x5e682068 case 11 => 0xfbcf5b8a
    case 12 => 0x9052955f case 13 => 0xe7d31473 case 14 => 0xc3fa4e18 case 15 => 0x10394824
    case 16 => 0xf8a2f90c case 17 => 0xab3bf93e case 18 => 0x0c253983 case 19 => 0xff695deb
    case 20 => 0x68ffee95 case 21 => 0x1e299f9f case 22 => 0x4b7d958b case 23 => 0xc855b714
    case 24 => 0x8a5d642e case 25 => 0x51d7d021 case 26 => 0x1fa902d7 case 27 => 0x282a826b
    case 28 => 0x44e67b7f case 29 => 0xdfff90ba case 30 => 0x4adae67e case 31 => 0x42859bea
    case 32 => 0x66a5732d case 33 => 0xb91e92a3 case 34 => 0x1dc60e11 case 35 => 0x80fcc6e1
    case 36 => 0x6e917d64 case 37 => 0xa6a75748 case 38 => 0x46d0a83c case 39 => 0xb95af0bc
    case 40 => 0xe48ed0b2 case 41 => 0x4eac110d case 42 => 0x7107cc8b case 43 => 0x83b7e3b4
    case 44 => 0xd1a80a8a case 45 => 0xd82ef872 case 46 => 0xbdd186ab case 47 => 0x61835c33
    case 48 => 0x970eb823 case 49 => 0xfbb0ed7b case 50 => 0xb1a5b847 case 51 => 0x07b0e991
    case 52 => 0x4d290015 case 53 => 0xae2b8d1b case 54 => 0x6b0912ae case 55 => 0xcc5cac49
    case 56 => 0x8b3ebddd case 57 => 0x88d3d0b3 case 58 => 0x2ebf62eb case 59 => 0x794f142a
    case 60 => 0x994dc019 case 61 => 0xd42a5147 case 62 => 0xfb5b0d9e case _ => 0xa8467f25
  }

  /** The values of e, preceded by those that h, g, f start with. */
  function ValueE(t: nat): bv32
    requires t <= 67
  {
    match t
    case 0 => 0x5be0cd19 case 1 => 0x1f83d9ab case 2 => 0x9b05688c case 3 => 0x510e527f
    case 4 => 0xfa2a4622 case 5 => 0x78ce7989 case 6 => 0xf92939eb case 7 => 0x24e00850
    case 8 => 0x43ada245 case 9 => 0x714260ad case 10 => 0x9b27a401 case 11 => 0x0c657a79
    case 12 => 0x32ca2d8c case 13 => 0x1cc92596 case 14 => 0x436b23e8 case 15 => 0x816fd6e9
    case 16 => 0x1e578218 case 17 => 0x745a48de case 18 => 0x0b92f20c case 19 => 0x07590dcd
    case 20 => 0x8034229c case 21 => 0x846ee454 case 22 => 0xcc899961 case 23 => 0xb0638179
    case 24 => 0x8ada8930 case 25 => 0xe1257970 case 26 => 0x49f5114a case 27 => 0xaa47c347
    case 28 => 0x2823ef91 case 29 => 0x14383d8e case 30 => 0xc74c6516 case 31 => 0xedffbff8
    case 32 => 0x6112a3b7 case 33 => 0xade79437 case 34 => 0x0109ab3a case 35 => 0xba591112
    case 36 => 0x9cd9f5f6 case 37 => 0x59249dd3 case 38 => 0x085f3833 case 39 => 0xf4b002d6
    case 40 => 0x0772a26b case 41 => 0xa507a53d case 42 => 0xf0781bc8 case 43 => 0x1efbc0a0
    case 44 => 0x26352d63 case 45 => 0x838b2711 case 46 => 0xdecd4715 case 47 => 0xfda24c2e
    case 48 => 0xa80f11f0 case 49 => 0xb7755da1 case 50 => 0xd57b94a9 case 51 => 0xfecf0bc6
    case 52 => 0xbd714038 case 53 => 0x6e5c390c case 54 => 0x52f1ccf7 case 55 => 0x49231c1e
    case 56 => 0x529e7d00 case 57 => 0x9f4787c3 case 58 => 0xe50e1b4f case 59 => 0x54cb266b
    case 60 => 0x9b5e906c case 61 => 0x7e44008e case 62 => 0x6d83bfc6 case 63 => 0xb21bad3d
    case 64 => 0x961f4894 case 65 => 0x948d25b6 case 66 => 0xfb121210 case _ => 0x5ef50f24
  }

  /** The working variables after t rounds: two of them are new in each. */
  function Traced(t: nat): Bits
    requires t <= 64
  {
    Bits(ValueA(t + 3), ValueA(t + 2), ValueA(t + 1), ValueA(t),
         ValueE(t + 3), ValueE(t + 2), ValueE(t + 1), ValueE(t))
  }

  lemma First0(t: nat)
    requires t < 4
    ensures ValueT(t) == T1(ValueE(t), ValueE(t + 3), ValueE(t + 2), ValueE(t + 1), Constant(t), Listed(t))
  {
  }

  lemma First4(t: nat)
    requires 4 <= t < 8
    ensures ValueT(t) == T1(ValueE(t), ValueE(t + 3), ValueE(t + 2), ValueE(t + 1), Constant(t), Listed(t))
  {
  }

  lemma First8(t: nat)
    requires 8 <= t < 12
    ensures ValueT(t) == T1(ValueE(t), ValueE(t + 3), ValueE(t + 2), ValueE(t + 1), Constant(t), Listed(t))
  {
  }

  lemma First12(t: nat)
    requires 12 <= t < 16
    ensures ValueT(t) == T1(ValueE(t), ValueE(t + 3), ValueE(t + 2), ValueE(t + 1), Constant(t), Listed(t))
  {
  }

  lemma First16(t: nat)
    requires 16 <= t < 20
    ensures ValueT(t) == T1(ValueE(t), ValueE(t + 3), ValueE(t + 2), ValueE(t + 1), Constant(t), Listed(t))
  {
  }

  lemma First20(t: nat)
    requires 20 <= t < 24
    ensures ValueT(t) == T1(ValueE(t), ValueE(t + 3), ValueE(t + 2), ValueE(t + 1), Constant(t), Listed(t))
  {
  }

  lemma First24(t: nat)
    requires 24 <= t < 28
    ensures ValueT(t) == T1(ValueE(t), ValueE(t + 3), ValueE(t + 2), ValueE(t + 1), Constant(t), Listed(t))
  {
  }

  lemma First28(t: nat)
    requires 28 <= t < 32
    ensures ValueT(t) == T1(ValueE(t), ValueE(t + 3), ValueE(t + 2), ValueE(t + 1), Constant(t), Listed(t))
  {
  }

  lemma First32(t: nat)
    requires 32 <= t < 36
    ensures ValueT(t) == T1(ValueE(t), ValueE(t + 3), ValueE(t + 2), ValueE(t + 1), Constant(t), Listed(t))
  {
  }

  lemma First36(t: nat)
    requires 36 <= t < 40
    ensures ValueT(t) == T1(ValueE(t), ValueE(t + 3), ValueE(t + 2), ValueE(t + 1), Constant(t), Listed(t))
  {
  }

  lemma First40(t: nat)
    requires 40 <= t < 44
    ensures ValueT(t) == T1(ValueE(t), ValueE(t + 3), ValueE(t + 2), ValueE(t + 1), Constant(t), Listed(t))
  {
  }

  lemma First44(t: nat)
    requires 44 <= t < 48
    ensures ValueT(t) == T1(ValueE(t), ValueE(t + 3), ValueE(t + 2), ValueE(t + 1), Constant(t), Listed(t))
  {
  }

  lemma First48(t: nat)
    requires 48 <= t < 52
    ensures ValueT(t) == T1(ValueE(t), ValueE(t + 3), ValueE(t + 2), ValueE(t + 1), Constant(t), Listed(t))
  {
  }

  lemma First52(t: nat)
    requires 52 <= t < 56
    ensures ValueT(t) == T1(ValueE(t), ValueE(t + 3), ValueE(t + 2), ValueE(t + 1), Constant(t), Listed(t))
  {
  }

  lemma First56(t: nat)
    requires 56 <= t < 60
    ensures ValueT(t) == T1(ValueE(t), ValueE(t + 3), ValueE(t + 2), ValueE(t + 1), Constant(t), Listed(t))
  {
  }

  lemma First60(t: nat)
    requires 60 <= t < 64
    ensures ValueT(t) == T1(ValueE(t), ValueE(t + 3), ValueE(t + 2), ValueE(t + 1), Constant(t), Listed(t))
  {
  }

  lemma FirstNext(t: nat)
    requires t < 64
    ensures ValueT(t) == T1(ValueE(t), ValueE(t + 3), ValueE(t + 2), ValueE(t + 1), Constant(t), Listed(t))
  {
    hide ValueE, ValueT, Constant, Listed, T1;
    if t < 4 {
      First0(t);
    } else if t < 8 {
      First4(t);
    } else if t < 12 {
      First8(t);
    } else if t < 16 {
      First12(t);
    } else if t < 20 {
      First16(t);
    } else if t < 24 {
      First20(t);
    } else if t < 28 {
      First24(t);
    } else if t < 32 {
      First28(t);
    } else if t < 36 {
      First32(t);
    } else if t < 40 {
      First36(t);
    } else if t < 44 {
      First40(t);
    } else if t < 48 {
      First44(t);
    } else if t < 52 {
      First48(t);
    } else if t < 56 {
      First52(t);
    } else if t < 60 {
      First56(t);
    } else {
      First60(t);
    }
  }

  lemma After0(t: nat)
    requires t < 4
    ensures ValueE(t + 4) == Sum(ValueA(t), ValueT(t))
    ensures ValueA(t + 4) == Sum(ValueT(t), T2(ValueA(t + 3), ValueA(t + 2), ValueA(t + 1)))
  {
  }

  lemma After4(t: nat)
    requires 4 <= t < 8
    ensures ValueE(t + 4) == Sum(ValueA(t), ValueT(t))
    ensures ValueA(t + 4) == Sum(ValueT(t), T2(ValueA(t + 3), ValueA(t + 2), ValueA(t + 1)))
  {
  }

  lemma After8(t: nat)
    requires 8 <= t < 12
    ensures ValueE(t + 4) == Sum(ValueA(t), ValueT(t))
    ensures ValueA(t + 4) == Sum(ValueT(t), T2(ValueA(t + 3), ValueA(t + 2), ValueA(t + 1)))
  {
  }

  lemma After12(t: nat)
    requires 12 <= t < 16
    ensures ValueE(t + 4) == Sum(ValueA(t), ValueT(t))
    ensures ValueA(t + 4) == Sum(ValueT(t), T2(ValueA(t + 3), ValueA(t + 2), ValueA(t + 1)))
  {
  }

  lemma After16(t: nat)
    requires 16 <= t < 20
    ensures ValueE(t + 4) == Sum(ValueA(t), ValueT(t))
    ensures ValueA(t + 4) == Sum(ValueT(t), T2(ValueA(t + 3), ValueA(t + 2), ValueA(t + 1)))
  {
  }

  lemma After20(t: nat)
    requires 20 <= t < 24
    ensures ValueE(t + 4) == Sum(ValueA(t), ValueT(t))
    ensures ValueA(t + 4) == Sum(ValueT(t), T2(ValueA(t + 3), ValueA(t + 2), ValueA(t + 1)))
  {
  }

  lemma After24(t: nat)
    requires 24 <= t < 28
    ensures ValueE(t + 4) == Sum(ValueA(t), ValueT(t))
    ensures ValueA(t + 4) == Sum(ValueT(t), T2(ValueA(t + 3), ValueA(t + 2), ValueA(t + 1)))
  {
  }

  lemma After28(t: nat)
    requires 28 <= t < 32
    ensures ValueE(t + 4) == Sum(ValueA(t), ValueT(t))
    ensures ValueA(t + 4) == Sum(ValueT(t), T2(ValueA(t + 3), ValueA(t + 2), ValueA(t + 1)))
  {
  }

  lemma After32(t: nat)
    requires 32 <= t < 36
    ensures ValueE(t + 4) == Sum(ValueA(t), ValueT(t))
    ensures ValueA(t + 4) == Sum(ValueT(t), T2(ValueA(t + 3), ValueA(t + 2), ValueA(t + 1)))
  {
  }

  lemma After36(t: nat)
    requires 36 <= t < 40
    ensures ValueE(t + 4) == Sum(ValueA(t), ValueT(t))
    ensures ValueA(t + 4) == Sum(ValueT(t), T2(ValueA(t + 3), ValueA(t + 2), ValueA(t + 1)))
  {
  }

  lemma After40(t: nat)
    requires 40 <= t < 44
    ensures ValueE(t + 4) == Sum(ValueA(t), ValueT(t))
    ensures ValueA(t + 4) == Sum(ValueT(t), T2(ValueA(t + 3), ValueA(t + 2), ValueA(t + 1)))
  {
  }

  lemma After44(t: nat)
    requires 44 <= t < 48
    ensures ValueE(t + 4) == Sum(ValueA(t), ValueT(t))
    ensures ValueA(t + 4) == Sum(ValueT(t), T2(ValueA(t + 3), ValueA(t + 2), ValueA(t + 1)))
  {
  }

  lemma After48(t: nat)
    requires 48 <= t < 52
    ensures ValueE(t + 4) == Sum(ValueA(t), ValueT(t))
    ensures ValueA(t + 4) == Sum(ValueT(t), T2(ValueA(t + 3), ValueA(t + 2), ValueA(t + 1)))
  {
  }

  lemma After52(t: nat)
    requires 52 <= t < 56
    ensures ValueE(t + 4) == Sum(ValueA(t), ValueT(t))
    ensures ValueA(t + 4) == Sum(ValueT(t), T2(ValueA(t + 3), ValueA(t + 2), ValueA(t + 1)))
  {
  }

  lemma After56(t: nat)
    requires 56 <= t < 60
    ensures ValueE(t + 4) == Sum(ValueA(t), ValueT(t))
    ensures ValueA(t + 4) == Sum(ValueT(t), T2(ValueA(t + 3), ValueA(t + 2), ValueA(t + 1)))
  {
  }

  lemma After60(t: nat)
    requires 60 <= t < 64
    ensures ValueE(t + 4) == Sum(ValueA(t), ValueT(t))
    ensures ValueA(t + 4) == Sum(ValueT(t), T2(ValueA(t + 3), ValueA(t + 2), ValueA(t + 1)))
  {
  }

  lemma AfterNext(t: nat)
    requires t < 64
    ensures ValueE(t + 4) == Sum(ValueA(t), ValueT(t))
    ensures ValueA(t + 4) == Sum(ValueT(t), T2(ValueA(t + 3), ValueA(t + 2), ValueA(t + 1)))
  {
    hide ValueA, ValueE, ValueT, T2, Sum;
    if t < 4 {
      After0(t);
    } else if t < 8 {
      After4(t);
    } else if t < 12 {
      After8(t);
    } else if t < 16 {
      After12(t);
    } else if t < 20 {
      After16(t);
    } else if t < 24 {
      After20(t);
    } else if t < 28 {
      After24(t);
    } else if t < 32 {
      After28(t);
    } else if t < 36 {
      After32(t);
    } else if t < 40 {
      After36(t);
    } else if t < 44 {
      After40(t);
    } else if t < 48 {
      After44(t);
    } else if t < 52 {
      After48(t);
    } else if t < 56 {
      After52(t);
    } else if t < 60 {
      After56(t);
    } else {
      After60(t);
    }
  }

  lemma TracedNext(t: nat)
    requires t < 64
    ensures Traced(t + 1) == RoundBits(Traced(t), Constant(t), Listed(t))
  {
    hide ValueA, ValueE, ValueT, Constant, Listed, T1, T2, Sum;
    FirstNext(t);
    AfterNext(t);
  }

  lemma StartTraced()
    ensures H0() == Lift(Traced(0))
  {
    hide H0, U32;
    InitialWords();
    BitsOfNumber(0x6a09e667, 0x6a09e667);
    BitsOfNumber(0xbb67ae85, 0xbb67ae85);
    BitsOfNumber(0x3c6ef372, 0x3c6ef372);
    BitsOfNumber(0xa54ff53a, 0xa54ff53a);
    BitsOfNumber(0x510e527f, 0x510e527f);
    BitsOfNumber(0x9b05688c, 0x9b05688c);
    BitsOfNumber(0x1f83d9ab, 0x1f83d9ab);
    BitsOfNumber(0x5be0cd19, 0x5be0cd19);
  }

  lemma {:induction false} RoundsAreTraced(t: nat)
    requires t <= 64
    ensures Rounds(H0(), Block(), t) == Lift(Traced(t))
  {
    hide H0, Block, W, K, Rounds, Lift, Traced, Listed, Constant, RoundBits, Round;
    if t == 0 {
      StartTraced();
      NoRounds(H0(), Block());
    } else {
      RoundsAreTraced(t - 1);
      NextRound(H0(), Block(), t - 1);
      ConstantIsK(t - 1);
      ScheduleIsListed(t - 1);
      RoundOf(Traced(t - 1), Constant(t - 1), Listed(t - 1));
      TracedNext(t - 1);
    }
  }

  lemma NoRounds(v: Words, block: seq<byte>)
    requires |block| == 64
    ensures Rounds(v, block, 0) == v
  {
  }

  function AddBits(s: Bits, u: Bits): Bits {
    Bits(Sum(s.a, u.a), Sum(s.b, u.b), Sum(s.c, u.c), Sum(s.d, u.d),
         Sum(s.e, u.e), Sum(s.f, u.f), Sum(s.g, u.g), Sum(s.h, u.h))
  }

  lemma AddOf(s: Bits, u: Bits)
    ensures AddWords(Lift(s), Lift(u)) == Lift(AddBits(s, u))
  {
    hide Plus, Sum;
    PlusOf(s.a, u.a);
    PlusOf(s.b, u.b);
    PlusOf(s.c, u.c);
    PlusOf(s.d, u.d);
    PlusOf(s.e, u.e);
    PlusOf(s.f, u.f);
    PlusOf(s.g, u.g);
    PlusOf(s.h, u.h);
  }

  const FINAL: Bits := Bits(
    0xba7816bf, 0x8f01cfea, 0x414140de, 0x5dae2223,
    0xb00361a3, 0x96177a9c, 0xb410ff61, 0xf20015ad)

  lemma FinalIsSum()
    ensures AddBits(Traced(64), Traced(0)) == FINAL
  {
    hide ValueA, ValueE, Sum;
    FinalA(0);
    FinalA(1);
    FinalA(2);
    FinalA(3);
    FinalE(0);
    FinalE(1);
    FinalE(2);
    FinalE(3);
  }

  lemma FinalA(i: nat)
    requires i < 4
    ensures Sum(ValueA(64 + i), ValueA(i)) ==
      if i == 3 then FINAL.a else if i == 2 then FINAL.b else if i == 1 then FINAL.c else FINAL.d
  {
  }

  lemma FinalE(i: nat)
    requires i < 4
    ensures Sum(ValueE(64 + i), ValueE(i)) ==
      if i == 3 then FINAL.e else if i == 2 then FINAL.f else if i == 1 then FINAL.g else FINAL.h
  {
  }

  lemma Compressed()
    ensures Compress(H0(), Block()) == Lift(FINAL)
  {
    hide Block, H0, Traced, Rounds, Lift, AddWords, AddBits;
    RoundsAreTraced(64);
    StartTraced();
    AddOf(Traced(64), Traced(0));
    FinalIsSum();
  }

  // ---------- The digest ----------

  lemma PaddedAbc()
    ensures BlockCount(3) == 1 && Pad(ABC) == Block()
  {
    hide BigEndian;
    assert ZeroCount(3) == 52;
    LengthOfAbc();
    assert Zeros(59) == Zeros(52) + Zeros(7);
  }

  lemma LengthOfAbc()
    ensures BigEndian(24, 8) == Zeros(7) + [24]
  {
    assert BigEndian(0, 7) == Zeros(7) by { ZeroBytes(7); }
  }

  lemma {:induction false} ZeroBytes(n: nat)
    ensures BigEndian(0, n) == Zeros(n)
  {
    if n > 0 {
      ZeroBytes(n - 1);
    }
  }
  lemma HashedBlock()
    ensures HashBlocks(Block(), 1) == Compress(H0(), Block())
  {
    hide Compress, Block, H0;
    assert HashBlocks(Block(), 0) == H0();
    assert Block()[0..64] == Block();
  }

  const DIGEST: seq<byte> := [
    0xba, 0x78, 0x16, 0xbf, 0x8f, 0x01, 0xcf, 0xea, 0x41, 0x41, 0x40, 0xde, 0x5d, 0xae, 0x22, 0x23,
    0xb0, 0x03, 0x61, 0xa3, 0x96, 0x17, 0x7a, 0x9c, 0xb4, 0x10, 0xff, 0x61, 0xf2, 0x00, 0x15, 0xad]

  lemma FinalBytes()
    ensures BytesOf(0xba7816bf) == [0xba, 0x78, 0x16, 0xbf]
    ensures BytesOf(0x8f01cfea) == [0x8f, 0x01, 0xcf, 0xea]
    ensures BytesOf(0x414140de) == [0x41, 0x41, 0x40, 0xde]
    ensures BytesOf(0x5dae2223) == [0x5d, 0xae, 0x22, 0x23]
    ensures BytesOf(0xb00361a3) == [0xb0, 0x03, 0x61, 0xa3]
    ensures BytesOf(0x96177a9c) == [0x96, 0x17, 0x7a, 0x9c]
    ensures BytesOf(0xb410ff61) == [0xb4, 0x10, 0xff, 0x61]
    ensures BytesOf(0xf20015ad) == [0xf2, 0x00, 0x15, 0xad]
  {
  }

  lemma FinalOutput()
    ensures Output(Lift(FINAL)) == DIGEST
  {
    hide BytesOf;
    FinalBytes();
  }

  /** The digest of "abc". */
  lemma AbcDigest()
    ensures Hash(ABC) == DIGEST
  {
    hide Pad, Block, Compress, HashBlocks, H0, Lift, Output;
    PaddedAbc();
    HashedBlock();
    Compressed();
    FinalOutput();
  }
}
