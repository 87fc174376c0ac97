// The portable streaming SHA-256 of native/sha256_portable.c, proved against FIPS 180-4.

module Sha256 {
  import opened Bytes
  import opened Sha256Spec

  // The word expressions of `sha256_transform`, each of them what the standard calls by name.  C's `rotr(x, n)` is
  // (x >> n) | (x << (32 - n)), written out at its constant n; `+` on uint32_t is `Plus`.

  function CodeBigSigma0Bits(a: bv32): (r: bv32)
    ensures r == BigSigma0Bits(a)
  {
    ((a >> 2) | (a << 30)) ^ ((a >> 13) | (a << 19)) ^ ((a >> 22) | (a << 10))
  }

  function CodeBigSigma1Bits(e: bv32): (r: bv32)
    ensures r == BigSigma1Bits(e)
  {
    ((e >> 6) | (e << 26)) ^ ((e >> 11) | (e << 21)) ^ ((e >> 25) | (e << 7))
  }

  function CodeSmallSigma0Bits(m: bv32): (r: bv32)
    ensures r == SmallSigma0Bits(m)
  {
    ((m >> 7) | (m << 25)) ^ ((m >> 18) | (m << 14)) ^ (m >> 3)
  }

  function CodeSmallSigma1Bits(m: bv32): (r: bv32)
    ensures r == SmallSigma1Bits(m)
  {
    ((m >> 17) | (m << 15)) ^ ((m >> 19) | (m << 13)) ^ (m >> 10)
  }

  function CodeChBits(e: bv32, f: bv32, g: bv32): (r: bv32)
    ensures r == ChBits(e, f, g)
  {
    (e & f) ^ (!e & g)
  }

  function CodeMajBits(a: bv32, b: bv32, c: bv32): (r: bv32)
    ensures r == MajBits(a, b, c)
  {
    (a & b) ^ (a & c) ^ (b & c)
  }

  function CodeBigSigma0(a: Word): (r: Word)
    ensures r == BigSigma0(a)
  {
    hide CodeBigSigma0Bits, BigSigma0Bits;
    W32(CodeBigSigma0Bits(a.bits))
  }

  function CodeBigSigma1(e: Word): (r: Word)
    ensures r == BigSigma1(e)
  {
    hide CodeBigSigma1Bits, BigSigma1Bits;
    W32(CodeBigSigma1Bits(e.bits))
  }

  function CodeSmallSigma0(m: Word): (r: Word)
    ensures r == SmallSigma0(m)
  {
    hide CodeSmallSigma0Bits, SmallSigma0Bits;
    W32(CodeSmallSigma0Bits(m.bits))
  }

  function CodeSmallSigma1(m: Word): (r: Word)
    ensures r == SmallSigma1(m)
  {
    hide CodeSmallSigma1Bits, SmallSigma1Bits;
    W32(CodeSmallSigma1Bits(m.bits))
  }

  function CodeCh(e: Word, f: Word, g: Word): (r: Word)
    ensures r == Ch(e, f, g)
  {
    hide CodeChBits, ChBits;
    W32(CodeChBits(e.bits, f.bits, g.bits))
  }

  function CodeMaj(a: Word, b: Word, c: Word): (r: Word)
    ensures r == Maj(a, b, c)
  {
    hide CodeMajBits, MajBits;
    W32(CodeMajBits(a.bits, b.bits, c.bits))
  }

  function ShiftOr(w0: bv32, w1: bv32, w2: bv32, w3: bv32): (r: bv32)
    requires w0 < 256 && w1 < 256 && w2 < 256 && w3 < 256
    ensures r == Horner(w0, w1, w2, w3)
  {
    (w0 << 24) | (w1 << 16) | (w2 << 8) | w3
  }

  function CodeWord(b0: byte, b1: byte, b2: byte, b3: byte): (r: Word)
    ensures r == WordOf(b0, b1, b2, b3)
  {
    hide ShiftOr, Horner, Extend;
    ByteIsSmall(b0);
    ByteIsSmall(b1);
    ByteIsSmall(b2);
    ByteIsSmall(b3);
    W32(ShiftOr(Extend(b0), Extend(b1), Extend(b2), Extend(b3)))
  }

  /** `(w >> (24 - i * 8)) & 0xff`. */
  function CodeByte(w: Word, i: nat): (b: byte)
    requires i < 4
    ensures b == WordBytes(w)[i]
  {
    hide LowByte;
    if i == 0 then LowByte(w.bits >> 24)
    else if i == 1 then LowByte(w.bits >> 16)
    else if i == 2 then LowByte(w.bits >> 8)
    else LowByte(w.bits)
  }

  lemma ByteIsSmall(b: byte)
    ensures Extend(b) < 256
  {
  }

  lemma PlusCommutes(x: Word, y: Word)
    ensures Plus(x, y) == Plus(y, x)
  {
  }

  /** The code adds the four schedule terms in the opposite order. */
  lemma ScheduleSum(x: Word, s0: Word, y: Word, s1: Word)
    ensures Plus4(x, s0, y, s1) == Plus4(s1, y, s0, x)
  {
  }

  lemma InitialWords()
    ensures H0() == Words(U32(0x6a09e667), U32(0xbb67ae85), U32(0x3c6ef372), U32(0xa54ff53a),
                          U32(0x510e527f), U32(0x9b05688c), U32(0x1f83d9ab), U32(0x5be0cd19))
  {
    hide U32;
  }

  // The table of `sha256_transform`, entry by entry the constants of section 4.2.2.

  const TABLE_0_15: seq<Word> := [
    U32(0x428a2f98), U32(0x71374491), U32(0xb5c0fbcf), U32(0xe9b5dba5),
    U32(0x3956c25b), U32(0x59f111f1), U32(0x923f82a4), U32(0xab1c5ed5),
    U32(0xd807aa98), U32(0x12835b01), U32(0x243185be), U32(0x550c7dc3),
    U32(0x72be5d74), U32(0x80deb1fe), U32(0x9bdc06a7), U32(0xc19bf174)]

  const TABLE_16_31: seq<Word> := [
    U32(0xe49b69c1), U32(0xefbe4786), U32(0x0fc19dc6), U32(0x240ca1cc),
    U32(0x2de92c6f), U32(0x4a7484aa), U32(0x5cb0a9dc), U32(0x76f988da),
    U32(0x983e5152), U32(0xa831c66d), U32(0xb00327c8), U32(0xbf597fc7),
    U32(0xc6e00bf3), U32(0xd5a79147), U32(0x06ca6351), U32(0x14292967)]

  const TABLE_32_47: seq<Word> := [
    U32(0x27b70a85), U32(0x2e1b2138), U32(0x4d2c6dfc), U32(0x53380d13),
    U32(0x650a7354), U32(0x766a0abb), U32(0x81c2c92e), U32(0x92722c85),
    U32(0xa2bfe8a1), U32(0xa81a664b), U32(0xc24b8b70), U32(0xc76c51a3),
    U32(0xd192e819), U32(0xd6990624), U32(0xf40e3585), U32(0x106aa070)]

  const TABLE_48_63: seq<Word> := [
    U32(0x19a4c116), U32(0x1e376c08), U32(0x2748774c), U32(0x34b0bcb5),
    U32(0x391c0cb3), U32(0x4ed8aa4a), U32(0x5b9cca4f), U32(0x682e6ff3),
    U32(0x748f82ee), U32(0x78a5636f), U32(0x84c87814), U32(0x8cc70208),
    U32(0x90befffa), U32(0xa4506ceb), U32(0xbef9a3f7), U32(0xc67178f2)]

  const TABLE: seq<Word> := TABLE_0_15 + TABLE_16_31 + TABLE_32_47 + TABLE_48_63

  lemma Table0(t: nat)
    requires 0 <= t < 16
    ensures K(t) == TABLE_0_15[t - 0]
  {
    hide U32;
    assert CUBE_ROOTS[t] == ROOTS_0_15[t - 0];
  }

  lemma Table16(t: nat)
    requires 16 <= t < 32
    ensures K(t) == TABLE_16_31[t - 16]
  {
    hide U32;
    assert CUBE_ROOTS[t] == ROOTS_16_31[t - 16];
  }

  lemma Table32(t: nat)
    requires 32 <= t < 48
    ensures K(t) == TABLE_32_47[t - 32]
  {
    hide U32;
    assert CUBE_ROOTS[t] == ROOTS_32_47[t - 32];
  }

  lemma Table48(t: nat)
    requires 48 <= t < 64
    ensures K(t) == TABLE_48_63[t - 48]
  {
    hide U32;
    assert CUBE_ROOTS[t] == ROOTS_48_63[t - 48];
  }

  lemma TableIsK(t: nat)
    requires t < 64
    ensures |TABLE| == 64 && TABLE[t] == K(t)
  {
    hide U32, K;
    if t < 16 {
      Table0(t);
    } else if t < 32 {
      Table16(t);
    } else if t < 48 {
      Table32(t);
    } else {
      Table48(t);
    }
  }

  lemma HashNoBlocks()
    ensures HashBlocks([], 0) == H0()
  {
  }

  // One step of each recursive definition, as the loops take it.

  lemma FirstWords(block: seq<byte>, t: nat)
    requires |block| == 64 && t < 16
    ensures W(block, t) == WordOf(block[4 * t], block[4 * t + 1], block[4 * t + 2], block[4 * t + 3])
  {
    hide WordOf;
  }

  lemma NextWord(block: seq<byte>, t: nat)
    requires |block| == 64 && 16 <= t < 64
    ensures W(block, t) == Plus4(SmallSigma1(W(block, t - 2)), W(block, t - 7), SmallSigma0(W(block, t - 15)), W(block, t - 16))
  {
    hide SmallSigma0, SmallSigma1, Plus4, WordOf;
  }

  lemma NextRound(v: Words, block: seq<byte>, t: nat)
    requires |block| == 64 && t < 64
    ensures Rounds(v, block, t + 1) == Round(Rounds(v, block, t), K(t), W(block, t))
  {
    hide Round, W;
  }

  ghost function View(s: array<Word>): Words
    requires s.Length == 8
    reads s
  {
    Words(s[0], s[1], s[2], s[3], s[4], s[5], s[6], s[7])
  }

  /** `sha256_ctx`.  `absorbed` and `compressions` record what has been fed in and how often a block was hashed. */
  class Context {
    const state: array<Word>
    var bitlen: nat // a uint64_t: every update of it is reduced modulo 2^64
    const data: array<byte>
    var datalen: nat
    ghost var absorbed: seq<byte>
    ghost var compressions: nat

    ghost predicate Shape()
    {
      state.Length == 8 && data.Length == 64
    }

    ghost predicate Valid()
      reads this, state, data
    {
      && Shape()
      && datalen < 64
      && |absorbed| == 64 * compressions + datalen
      && data[..datalen] == absorbed[64 * compressions..]
      && bitlen == 512 * compressions % 0x1_0000_0000_0000_0000
      && View(state) == HashBlocks(absorbed, compressions)
    }

    /** `sha256_init` on fresh storage. */
    constructor ()
      ensures Valid() && fresh(state) && fresh(data)
      ensures absorbed == []
    {
      hide H0, U32, HashBlocks;
      state := new Word[] [U32(0x6a09e667), U32(0xbb67ae85), U32(0x3c6ef372), U32(0xa54ff53a),
                           U32(0x510e527f), U32(0x9b05688c), U32(0x1f83d9ab), U32(0x5be0cd19)];
      data := new byte[64];
      datalen := 0;
      bitlen := 0;
      absorbed := [];
      compressions := 0;
      InitialWords();
      HashNoBlocks();
    }

    /** The schedule loops of `sha256_transform`. */
    method Schedule() returns (m: array<Word>)
      requires Shape()
      ensures fresh(m) && m.Length == 64
      ensures forall t :: 0 <= t < 64 ==> m[t] == W(data[..], t)
    {
      hide W, WordOf, Plus4, SmallSigma0, SmallSigma1, CodeWord, CodeSmallSigma0, CodeSmallSigma1;
      ghost var block := data[..];
      m := new Word[64](_ => W32(0));
      var i, j := 0, 0;
      while i < 16
        invariant 0 <= i <= 16 && j == 4 * i
        invariant forall t :: 0 <= t < i ==> m[t] == W(block, t)
      {
        m[i] := CodeWord(data[j], data[j + 1], data[j + 2], data[j + 3]);
        FirstWords(block, i);
        i, j := i + 1, j + 4;
      }
      while i < 64
        invariant 16 <= i <= 64
        invariant forall t :: 0 <= t < i ==> m[t] == W(block, t)
      {
        var s0 := CodeSmallSigma0(m[i - 15]);
        var s1 := CodeSmallSigma1(m[i - 2]);
        NextWord(block, i);
        ScheduleSum(m[i - 16], s0, m[i - 7], s1);
        m[i] := Plus4(m[i - 16], s0, m[i - 7], s1);
        i := i + 1;
      }
    }

    /** `sha256_transform` on the context's own buffer. */
    method Transform()
      requires Shape()
      modifies state, this`compressions
      ensures View(state) == Compress(old(View(state)), data[..])
      ensures compressions == old(compressions) + 1
    {
      hide TABLE, Rounds, W, K, Plus, BigSigma0, BigSigma1, Ch, Maj, CodeBigSigma0, CodeBigSigma1, CodeCh, CodeMaj;
      ghost var block := data[..];
      ghost var start := View(state);
      var m := Schedule();
      var a, b, c, d := state[0], state[1], state[2], state[3];
      var e, f, g, h := state[4], state[5], state[6], state[7];
      var i := 0;
      assert start == Rounds(start, block, 0) by {
        RoundsZero(start, block);
      }
      while i < 64
        invariant 0 <= i <= 64
        invariant Words(a, b, c, d, e, f, g, h) == Rounds(start, block, i)
        modifies {}
      {
        var bs1 := CodeBigSigma1(e);
        var ch := CodeCh(e, f, g);
        TableIsK(i);
        var t1 := Plus(Plus(Plus(Plus(h, bs1), ch), TABLE[i]), m[i]);
        var bs0 := CodeBigSigma0(a);
        var maj := CodeMaj(a, b, c);
        var t2 := Plus(bs0, maj);
        NextRound(start, block, i);
        h := g;
        g := f;
        f := e;
        e := Plus(d, t1);
        d := c;
        c := b;
        b := a;
        a := Plus(t1, t2);
        i := i + 1;
      }
      Accumulate(a, b, c, d, e, f, g, h);
      compressions := compressions + 1;
    }

    /** The eight additions at the end of `sha256_transform`. */
    method Accumulate(a: Word, b: Word, c: Word, d: Word, e: Word, f: Word, g: Word, h: Word)
      requires Shape()
      modifies state
      ensures View(state) == AddWords(Words(a, b, c, d, e, f, g, h), old(View(state)))
    {
      hide Plus;
      PlusCommutes(state[0], a);
      PlusCommutes(state[1], b);
      PlusCommutes(state[2], c);
      PlusCommutes(state[3], d);
      PlusCommutes(state[4], e);
      PlusCommutes(state[5], f);
      PlusCommutes(state[6], g);
      PlusCommutes(state[7], h);
      state[0] := Plus(state[0], a);
      state[1] := Plus(state[1], b);
      state[2] := Plus(state[2], c);
      state[3] := Plus(state[3], d);
      state[4] := Plus(state[4], e);
      state[5] := Plus(state[5], f);
      state[6] := Plus(state[6], g);
      state[7] := Plus(state[7], h);
    }

    /** `sha256_update`: any split of a message into calls absorbs the same bytes. */
    method Update(bytes: seq<byte>)
      requires Valid()
      modifies this`bitlen, this`datalen, this`absorbed, this`compressions, state, data
      ensures Valid()
      ensures absorbed == old(absorbed) + bytes
      ensures compressions == |absorbed| / 64 && datalen == |absorbed| % 64
    {
      hide HashBlocks;
      var i := 0;
      while i < |bytes|
        invariant 0 <= i <= |bytes|
        invariant Valid()
        invariant absorbed == old(absorbed) + bytes[..i]
      {
        UpdateByte(bytes[i]);
        i := i + 1;
      }
    }

    /** One iteration of the loop of `sha256_update`. */
    method UpdateByte(b: byte)
      requires Valid()
      modifies this`bitlen, this`datalen, this`absorbed, this`compressions, state, data
      ensures Valid()
      ensures absorbed == old(absorbed) + [b]
    {
      hide HashBlocks, Compress;
      ghost var k := compressions;
      HashBlocksPrefix(absorbed, [b], k);
      data[datalen] := b;
      datalen := datalen + 1;
      absorbed := absorbed + [b];
      assert data[..datalen] == absorbed[64 * k..];
      if datalen == 64 {
        assert data[..] == absorbed[64 * k..64 * k + 64];
        HashNextBlock(absorbed, k);
        Transform();
        BitLength(k);
        bitlen := (bitlen + 512) % 0x1_0000_0000_0000_0000;
        datalen := 0;
      }
    }

    /** `sha256_final`: the padding written in place is the standard's, in exactly (n + 8) div 64 + 1 compressions. */
    method Final() returns (hash: array<byte>)
      requires Valid()
      modifies this`bitlen, this`compressions, state, data
      ensures fresh(hash) && hash[..] == Hash(absorbed)
      ensures absorbed == old(absorbed)
      ensures compressions == BlockCount(|absorbed|)
    {
      hide HashBlocks, Compress, Output, Pad, BlockCount, BigEndian, Zeros;
      ghost var k, d := compressions, datalen;
      if datalen < 56 {
        FillOneBlock();
      } else {
        FillTwoBlocks();
      }
      CountBlocks(k, d);
      AppendLength(k);
      HashNextBlock(Pad(absorbed), compressions);
      Transform();
      hash := Serialize();
    }

    /** The last update of the bit counter and its eight stores; `k` blocks had been compressed before padding. */
    method AppendLength(ghost k: nat)
      requires Shape() && bitlen == 512 * k % 0x1_0000_0000_0000_0000
      requires datalen < 64 && |absorbed| == 64 * k + datalen
      modifies this`bitlen, data
      ensures data[..] == old(data[..56]) + BigEndian(8 * |absorbed|, 8)
    {
      hide BigEndian;
      FinalBitLength(k, datalen);
      bitlen := (bitlen + datalen * 8) % 0x1_0000_0000_0000_0000;
      WriteLength();
      CutLengthField(8 * |absorbed|);
    }

    /** The first branch of `sha256_final`. */
    method FillOneBlock()
      requires Valid() && datalen < 56
      modifies data
      ensures |Pad(absorbed)| == 64 * compressions + 64
      ensures View(state) == HashBlocks(Pad(absorbed), compressions)
      ensures data[..56] + BigEndian(8 * |absorbed|, 8) == Pad(absorbed)[64 * compressions..64 * compressions + 64]
    {
      hide HashBlocks, Suffix, BigEndian, Zeros;
      ghost var tail := absorbed[64 * compressions..];
      WriteMarker(56);
      ShortSuffix(tail, compressions);
      CountBlocks(compressions, datalen);
      HashBlocksPrefix(absorbed, Suffix(|absorbed|), compressions);
      PadFrom(absorbed, 64 * compressions);
    }

    /** The second branch of `sha256_final`. */
    method FillTwoBlocks()
      requires Valid() && 56 <= datalen
      modifies this`compressions, state, data
      ensures compressions == old(compressions) + 1
      ensures |Pad(absorbed)| == 64 * compressions + 64
      ensures View(state) == HashBlocks(Pad(absorbed), compressions)
      ensures data[..56] + BigEndian(8 * |absorbed|, 8) == Pad(absorbed)[64 * compressions..64 * compressions + 64]
    {
      hide HashBlocks, Compress, Suffix, BigEndian, Zeros;
      ghost var k, tail := compressions, absorbed[64 * compressions..];
      ghost var padded := Pad(absorbed);
      CountBlocks(compressions, datalen);
      HashBlocksPrefix(absorbed, Suffix(|absorbed|), k);
      LongSuffix(tail, k);
      PadFrom(absorbed, 64 * k);
      WriteMarker(64);
      TwoBlocks(padded, 64 * k, data[..], Zeros(56) + BigEndian(8 * |absorbed|, 8));
      HashNextBlock(padded, k);
      Transform();
      ZeroFill(0, 56);
    }

    /** The byte 0x80 and the zeroing loop that follows it. */
    method WriteMarker(to: nat)
      requires Shape() && datalen < to <= 64
      modifies data
      ensures data[..to] == old(data[..datalen]) + [0x80] + Zeros(to - datalen - 1)
    {
      hide Zeros;
      data[datalen] := 0x80;
      assert data[..datalen + 1] == old(data[..datalen]) + [0x80];
      ZeroFill(datalen + 1, to);
    }

    /** The zeroing loops and `memset` of `sha256_final`. */
    method ZeroFill(from: nat, to: nat)
      requires Shape() && from <= to <= 64
      modifies data
      ensures data[..] == old(data[..from]) + Zeros(to - from) + old(data[to..])
    {
      var i := from;
      while i < to
        invariant from <= i <= to
        invariant data[..] == old(data[..from]) + Zeros(i - from) + old(data[i..])
      {
        data[i] := 0x00;
        i := i + 1;
      }
    }

    /** The eight stores of the bit length. */
    method WriteLength()
      requires Shape()
      modifies data
      ensures data[..] == old(data[..56]) + BigEndian(bitlen, 8)
    {
      hide BigEndian;
      data[63] := bitlen % 256;
      data[62] := bitlen / 0x100 % 256;
      data[61] := bitlen / 0x1_0000 % 256;
      data[60] := bitlen / 0x100_0000 % 256;
      data[59] := bitlen / 0x1_0000_0000 % 256;
      data[58] := bitlen / 0x100_0000_0000 % 256;
      data[57] := bitlen / 0x1_0000_0000_0000 % 256;
      data[56] := bitlen / 0x100_0000_0000_0000 % 256;
      BigEndian8(bitlen);
      assert data[..56] == old(data[..56]);
      assert data[56..] == BigEndian(bitlen, 8);
      assert data[..] == data[..56] + data[56..];
    }

    /** The output loop of `sha256_final`. */
    method Serialize() returns (hash: array<byte>)
      requires Shape()
      ensures fresh(hash) && hash[..] == Output(View(state))
    {
      hide WordBytes, CodeByte, Output;
      ghost var v := View(state);
      hash := new byte[32];
      var i := 0;
      while i < 4
        invariant 0 <= i <= 4
        invariant forall w, k :: 0 <= w < 8 && 0 <= k < i ==> hash[4 * w + k] == WordBytes(Nth(v, w))[k]
      {
        hash[i] := CodeByte(state[0], i);
        hash[i + 4] := CodeByte(state[1], i);
        hash[i + 8] := CodeByte(state[2], i);
        hash[i + 12] := CodeByte(state[3], i);
        hash[i + 16] := CodeByte(state[4], i);
        hash[i + 20] := CodeByte(state[5], i);
        hash[i + 24] := CodeByte(state[6], i);
        hash[i + 28] := CodeByte(state[7], i);
        i := i + 1;
      }
      OutputInQuarters(v, hash[..]);
    }
  }

  function Nth(v: Words, i: nat): Word
    requires i < 8
  {
    [v.a, v.b, v.c, v.d, v.e, v.f, v.g, v.h][i]
  }

  lemma OutputInQuarters(v: Words, s: seq<byte>)
    requires |s| == 32
    requires forall w, k :: 0 <= w < 8 && 0 <= k < 4 ==> s[4 * w + k] == WordBytes(Nth(v, w))[k]
    ensures s == Output(v)
  {
    hide WordBytes;
    assert s[0..4] == WordBytes(v.a) by { Quarter(v, s, 0); }
    assert s[4..8] == WordBytes(v.b) by { Quarter(v, s, 1); }
    assert s[8..12] == WordBytes(v.c) by { Quarter(v, s, 2); }
    assert s[12..16] == WordBytes(v.d) by { Quarter(v, s, 3); }
    assert s[16..20] == WordBytes(v.e) by { Quarter(v, s, 4); }
    assert s[20..24] == WordBytes(v.f) by { Quarter(v, s, 5); }
    assert s[24..28] == WordBytes(v.g) by { Quarter(v, s, 6); }
    assert s[28..32] == WordBytes(v.h) by { Quarter(v, s, 7); }
    Eighths(s);
  }

  lemma Quarter(v: Words, s: seq<byte>, w: nat)
    requires |s| == 32 && w < 8
    requires forall k :: 0 <= k < 4 ==> s[4 * w + k] == WordBytes(Nth(v, w))[k]
    ensures s[4 * w..4 * w + 4] == WordBytes(Nth(v, w))
  {
    hide WordBytes, Nth;
  }

  lemma Eighths(s: seq<byte>)
    requires |s| == 32
    ensures s == s[0..4] + s[4..8] + s[8..12] + s[12..16] + s[16..20] + s[20..24] + s[24..28] + s[28..32]
  {
  }

  lemma RoundsZero(v: Words, block: seq<byte>)
    requires |block| == 64
    ensures Rounds(v, block, 0) == v
  {
  }

  // How the wrapping 64-bit counter follows the number of bytes.

  lemma CountBlocks(k: nat, d: nat)
    requires d < 64
    ensures BlockCount(64 * k + d) == if d < 56 then k + 1 else k + 2
  {
  }

  lemma BitLength(c: nat)
    ensures (512 * c % 0x1_0000_0000_0000_0000 + 512) % 0x1_0000_0000_0000_0000
         == 512 * (c + 1) % 0x1_0000_0000_0000_0000
  {
  }

  lemma FinalBitLength(c: nat, d: nat)
    requires d < 64
    ensures (512 * c % 0x1_0000_0000_0000_0000 + d * 8) % 0x1_0000_0000_0000_0000
         == 8 * (64 * c + d) % 0x1_0000_0000_0000_0000
  {
  }

  // The two layouts `sha256_final` produces are the standard's padding.  `t` is the buffered tail of a message of
  // n bytes.

  lemma ZerosAdd(x: nat, y: nat)
    ensures Zeros(x + y) == Zeros(x) + Zeros(y)
  {
  }

  lemma TwoBlocks<T>(s: seq<T>, c: nat, a: seq<T>, b: seq<T>)
    requires |s| == c + 128 && |a| == |b| == 64 && s[c..] == a + b
    ensures s[c..c + 64] == a && s[c + 64..c + 128] == b
  {
    assert s[c..c + 64] == s[c..][..64];
    assert s[c + 64..c + 128] == s[c..][64..];
  }

  lemma Regroup<T>(a: seq<T>, b: seq<T>, c: seq<T>, d: seq<T>)
    ensures a + b + c + d == a + (b + c + d)
  {
  }

  lemma RegroupLong<T>(a: seq<T>, b: seq<T>, c: seq<T>, d: seq<T>, e: seq<T>)
    ensures (a + b + c) + (d + e) == a + (b + (c + d) + e)
  {
  }

  lemma ShortSuffix(t: seq<byte>, k: nat)
    requires |t| < 56
    ensures t + [0x80] + Zeros(55 - |t|) + BigEndian(8 * (64 * k + |t|), 8) == t + Suffix(64 * k + |t|)
  {
    hide BigEndian, ZeroCount, Zeros;
    ZeroCountCases(k, |t|);
    Regroup(t, [0x80], Zeros(55 - |t|), BigEndian(8 * (64 * k + |t|), 8));
  }

  lemma LongSuffix(t: seq<byte>, k: nat)
    requires 56 <= |t| < 64
    ensures (t + [0x80] + Zeros(63 - |t|)) + (Zeros(56) + BigEndian(8 * (64 * k + |t|), 8)) == t + Suffix(64 * k + |t|)
  {
    hide BigEndian, ZeroCount, Zeros;
    ZeroCountCases(k, |t|);
    ZerosAdd(63 - |t|, 56);
    RegroupLong(t, [0x80], Zeros(63 - |t|), Zeros(56), BigEndian(8 * (64 * k + |t|), 8));
  }

  lemma PadFrom(m: seq<byte>, c: nat)
    requires c <= |m|
    ensures Pad(m)[c..] == m[c..] + Suffix(|m|)
    ensures |Pad(m)| == c + 64 ==> Pad(m)[c..c + 64] == m[c..] + Suffix(|m|)
  {
    hide Suffix;
  }

  /** Only the low 64 bits of the bit count reach the length field. */
  lemma CutLengthField(v: nat)
    ensures BigEndian(v % 0x1_0000_0000_0000_0000, 8) == BigEndian(v, 8)
  {
    hide BigEndian, FromBigEndian, Pow256;
    BigEndianRoundTrip(v, 8);
    Pow256Of8();
    FromBigEndianRoundTrip(BigEndian(v, 8));
  }

  lemma BigEndianTwoMore(v: nat, width: nat)
    ensures BigEndian(v, width + 2) == BigEndian(v / 0x1_0000, width) + [v / 0x100 % 256, v % 256]
  {
    assert BigEndian(v / 0x100, width + 1) == BigEndian(v / 0x1_0000, width) + [v / 0x100 % 256];
  }

  lemma BigEndianZero(v: nat)
    ensures BigEndian(v, 0) == []
  {
  }

  lemma ShiftTwice(v: nat)
    ensures v / 0x1_0000 / 0x100 == v / 0x100_0000
    ensures v / 0x1_0000 / 0x1_0000 == v / 0x1_0000_0000
  {
  }

  lemma BigEndian4(v: nat)
    ensures BigEndian(v, 4) == [v / 0x100_0000 % 256, v / 0x1_0000 % 256, v / 0x100 % 256, v % 256]
    ensures BigEndian(v, 8) == BigEndian(v / 0x1_0000_0000, 4) + BigEndian(v, 4)
  {
    hide BigEndian;
    var x := v / 0x1_0000;
    ShiftTwice(v);
    BigEndianTwoMore(v, 2);
    BigEndianTwoMore(x, 0);
    BigEndianZero(x / 0x1_0000);
    BigEndianTwoMore(v, 6);
    BigEndianTwoMore(x, 4);
  }

  lemma ShiftFour(v: nat)
    ensures v / 0x1_0000_0000 / 0x100 == v / 0x100_0000_0000
    ensures v / 0x1_0000_0000 / 0x1_0000 == v / 0x1_0000_0000_0000
    ensures v / 0x1_0000_0000 / 0x100_0000 == v / 0x100_0000_0000_0000
  {
  }

  lemma BigEndian8(v: nat)
    ensures BigEndian(v, 8) ==
      [v / 0x100_0000_0000_0000 % 256, v / 0x1_0000_0000_0000 % 256, v / 0x100_0000_0000 % 256,
       v / 0x1_0000_0000 % 256, v / 0x100_0000 % 256, v / 0x1_0000 % 256, v / 0x100 % 256, v % 256]
  {
    hide BigEndian;
    ShiftFour(v);
    BigEndian4(v);
    BigEndian4(v / 0x1_0000_0000);
  }

  /** `lean_tee_sha256`. */
  method LeanTeeSha256(input: seq<byte>) returns (out: seq<byte>)
    ensures out == Hash(input)
  {
    hide *;
    var ctx := new Context();
    ctx.Update(input);
    assert ctx.absorbed == input;
    var hash := ctx.Final();
    out := hash[..];
  }

  /** The bytes of all pieces, in order. */
  function Flatten(pieces: seq<seq<byte>>): seq<byte> {
    if pieces == [] then [] else Flatten(pieces[..|pieces| - 1]) + pieces[|pieces| - 1]
  }

  /** A client that cuts its message anywhere, into any number of pieces, empty ones included: one init, one update for
      each piece, one final, and the result is the SHA-256 of the whole. */
  method HashInPieces(pieces: seq<seq<byte>>) returns (out: seq<byte>)
    ensures out == Hash(Flatten(pieces))
  {
    hide Hash;
    var ctx := new Context();
    var i := 0;
    while i < |pieces|
      invariant 0 <= i <= |pieces|
      invariant ctx.Valid() && fresh(ctx) && fresh(ctx.state) && fresh(ctx.data)
      invariant ctx.absorbed == Flatten(pieces[..i])
    {
      assert pieces[..i + 1][..i] == pieces[..i];
      ctx.Update(pieces[i]);
      i := i + 1;
    }
    assert pieces[..i] == pieces;
    var hash := ctx.Final();
    out := hash[..];
  }
}
