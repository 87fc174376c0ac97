// What the word operations of the standard mean: the order of the bytes of a word, and choose and majority bit by bit.

module Sha256Laws {
  import opened Bytes
  import opened Sha256Spec

  // ---------- The number that a word denotes ----------

  /** Bit i of a word, bit 0 the lowest. */
  function BitAt(x: bv32, i: nat): nat
    requires i < 32
  {
    if (x >> i) & 1 == 1 then 1 else 0
  }

  /** The number that the bits of a word from i on denote. */
  function BitValue(x: bv32, i: nat): nat
    requires i <= 32
    decreases 32 - i
  {
    if i == 32 then 0 else 2 * BitValue(x, i + 1) + BitAt(x, i)
  }

  function EightBits(x: bv32, i: nat): nat
    requires i <= 24
  {
    16 * FourBits(x, i + 4) + FourBits(x, i)
  }

  function FourBits(x: bv32, i: nat): nat
    requires i <= 28
  {
    8 * BitAt(x, i + 3) + 4 * BitAt(x, i + 2) + 2 * BitAt(x, i + 1) + BitAt(x, i)
  }

  lemma LowByte0(x: bv32)
    ensures LowByte(x) == EightBits(x, 0)
  {
  }

  lemma ShiftedBits8(x: bv32)
    ensures BitAt(x >> 8, 0) == BitAt(x, 8) && BitAt(x >> 8, 1) == BitAt(x, 9)
    ensures BitAt(x >> 8, 2) == BitAt(x, 10) && BitAt(x >> 8, 3) == BitAt(x, 11)
    ensures BitAt(x >> 8, 4) == BitAt(x, 12) && BitAt(x >> 8, 5) == BitAt(x, 13)
    ensures BitAt(x >> 8, 6) == BitAt(x, 14) && BitAt(x >> 8, 7) == BitAt(x, 15)
  {
  }

  lemma LowByte8(x: bv32)
    ensures LowByte(x >> 8) == EightBits(x, 8)
  {
    hide LowByte, BitAt;
    LowByte0(x >> 8);
    ShiftedBits8(x);
  }

  lemma ShiftedBits16(x: bv32)
    ensures BitAt(x >> 16, 0) == BitAt(x, 16) && BitAt(x >> 16, 1) == BitAt(x, 17)
    ensures BitAt(x >> 16, 2) == BitAt(x, 18) && BitAt(x >> 16, 3) == BitAt(x, 19)
    ensures BitAt(x >> 16, 4) == BitAt(x, 20) && BitAt(x >> 16, 5) == BitAt(x, 21)
    ensures BitAt(x >> 16, 6) == BitAt(x, 22) && BitAt(x >> 16, 7) == BitAt(x, 23)
  {
  }

  lemma LowByte16(x: bv32)
    ensures LowByte(x >> 16) == EightBits(x, 16)
  {
    hide LowByte, BitAt;
    LowByte0(x >> 16);
    ShiftedBits16(x);
  }

  lemma ShiftedBits24(x: bv32)
    ensures BitAt(x >> 24, 0) == BitAt(x, 24) && BitAt(x >> 24, 1) == BitAt(x, 25)
    ensures BitAt(x >> 24, 2) == BitAt(x, 26) && BitAt(x >> 24, 3) == BitAt(x, 27)
    ensures BitAt(x >> 24, 4) == BitAt(x, 28) && BitAt(x >> 24, 5) == BitAt(x, 29)
    ensures BitAt(x >> 24, 6) == BitAt(x, 30) && BitAt(x >> 24, 7) == BitAt(x, 31)
  {
  }

  lemma LowByte24(x: bv32)
    ensures LowByte(x >> 24) == EightBits(x, 24)
  {
    hide LowByte, BitAt;
    LowByte0(x >> 24);
    ShiftedBits24(x);
  }

  lemma NextFour(x: bv32, i: nat)
    requires i <= 28
    ensures BitValue(x, i) == 16 * BitValue(x, i + 4) + FourBits(x, i)
  {
    hide BitAt;
    assert BitValue(x, i + 2) == 4 * BitValue(x, i + 4) + 2 * BitAt(x, i + 3) + BitAt(x, i + 2);
  }

  lemma NextByte(x: bv32, i: nat)
    requires i <= 24
    ensures BitValue(x, i) == 256 * BitValue(x, i + 8) + EightBits(x, i)
  {
    hide BitValue, FourBits;
    NextFour(x, i);
    NextFour(x, i + 4);
  }

  lemma NoBits(x: bv32)
    ensures BitValue(x, 32) == 0
  {
  }

  lemma LowBytesValue(x: bv32)
    ensures FromBigEndian([LowByte(x >> 24), LowByte(x >> 16), LowByte(x >> 8), LowByte(x)]) == BitValue(x, 0)
  {
    hide EightBits, LowByte, FromBigEndian, BitValue;
    NoBits(x);
    LowByte0(x);
    LowByte8(x);
    LowByte16(x);
    LowByte24(x);
    NextByte(x, 0);
    NextByte(x, 8);
    NextByte(x, 16);
    NextByte(x, 24);
    FourBytes(LowByte(x >> 24), LowByte(x >> 16), LowByte(x >> 8), LowByte(x));
  }

  lemma BytesOfValue(x: bv32)
    ensures FromBigEndian(BytesOf(x)) == BitValue(x, 0)
  {
    hide LowByte, FromBigEndian, BitValue;
    LowBytesValue(x);
  }

  /** The digest bytes of a word are its value in base 256, most significant byte first. */
  lemma WordBytesValue(w: Word)
    ensures FromBigEndian(WordBytes(w)) == BitValue(w.bits, 0)
  {
    hide BytesOf, FromBigEndian, BitValue;
    BytesOfValue(w.bits);
  }

  // ---------- Reading and writing a word ----------

  lemma ToWord(n: int, x: bv32)
    requires n == x as int
    ensures n as bv32 == x
  {
  }

  lemma ExtendLowByte(x: bv32)
    ensures Extend(LowByte(x)) == x & 0xff
  {
    ToWord(LowByte(x), x & 0xff);
  }

  lemma ExtendIsSmall(b: byte)
    ensures Extend(b) < 256
  {
  }

  lemma HornerOfBytes(x: bv32)
    ensures Horner((x >> 24) & 0xff, (x >> 16) & 0xff, (x >> 8) & 0xff, x & 0xff) == x
  {
  }

  lemma BitsOfLowBytes(x: bv32)
    ensures BitsOf(LowByte(x >> 24), LowByte(x >> 16), LowByte(x >> 8), LowByte(x)) == x
  {
    hide Horner, LowByte, Extend;
    ExtendLowByte(x >> 24);
    ExtendLowByte(x >> 16);
    ExtendLowByte(x >> 8);
    ExtendLowByte(x);
    HornerOfBytes(x);
  }

  lemma BitsOfBytes(x: bv32)
    ensures
      var s := BytesOf(x);
      BitsOf(s[0], s[1], s[2], s[3]) == x
  {
    hide BitsOf, LowByte;
    BitsOfLowBytes(x);
  }

  /** A word is read back from its bytes. */
  lemma WordRoundTrip(w: Word)
    ensures
      var s := WordBytes(w);
      WordOf(s[0], s[1], s[2], s[3]) == w
  {
    hide BitsOf, BytesOf;
    BitsOfBytes(w.bits);
  }

  lemma TakeBits(b7: bool, b6: bool, b5: bool, b4: bool, b3: bool, b2: bool, b1: bool, b0: bool) returns (y: bv32)
    ensures BitAt(y, 7) == One(b7) && BitAt(y, 6) == One(b6) && BitAt(y, 5) == One(b5) && BitAt(y, 4) == One(b4)
    ensures BitAt(y, 3) == One(b3) && BitAt(y, 2) == One(b2) && BitAt(y, 1) == One(b1) && BitAt(y, 0) == One(b0)
  {
    y := (if b7 then 128 else 0) | (if b6 then 64 else 0) | (if b5 then 32 else 0) | (if b4 then 16 else 0) |
         (if b3 then 8 else 0) | (if b2 then 4 else 0) | (if b1 then 2 else 0) | (if b0 then 1 else 0);
  }

  function One(b: bool): nat {
    if b then 1 else 0
  }

  function FourOnes(b3: bool, b2: bool, b1: bool, b0: bool): nat {
    8 * One(b3) + 4 * One(b2) + 2 * One(b1) + One(b0)
  }

  lemma FromBits(b7: bool, b6: bool, b5: bool, b4: bool, b3: bool, b2: bool, b1: bool, b0: bool) returns (y: bv32)
    ensures LowByte(y) == 16 * FourOnes(b7, b6, b5, b4) + FourOnes(b3, b2, b1, b0)
  {
    hide LowByte, BitAt, One;
    y := TakeBits(b7, b6, b5, b4, b3, b2, b1, b0);
    LowByte0(y);
  }

  lemma Nibble(n: nat) returns (b3: bool, b2: bool, b1: bool, b0: bool)
    requires n < 16
    ensures n == FourOnes(b3, b2, b1, b0)
  {
    b3, b2, b1, b0 := n / 8 == 1, n / 4 % 2 == 1, n / 2 % 2 == 1, n % 2 == 1;
  }

  lemma WithValue(hi: nat, lo: nat) returns (y: bv32)
    requires hi < 16 && lo < 16
    ensures LowByte(y) == 16 * hi + lo
  {
    hide LowByte, FourOnes;
    var b7, b6, b5, b4 := Nibble(hi);
    var b3, b2, b1, b0 := Nibble(lo);
    y := FromBits(b7, b6, b5, b4, b3, b2, b1, b0);
  }

  lemma LowByteMask(x: bv32, y: bv32)
    requires x & 0xff == y & 0xff
    ensures LowByte(x) == LowByte(y)
  {
  }

  lemma MaskTwice(y: bv32)
    ensures (y & 0xff) & 0xff == y & 0xff
  {
  }

  lemma LowByteExtend(b: byte)
    ensures LowByte(Extend(b)) == b
  {
    hide LowByte, Extend;
    var y := WithValue(b / 16, b % 16);
    ExtendLowByte(y);
    MaskTwice(y);
    LowByteMask(Extend(b), y);
  }

  lemma LowByteIs(x: bv32, b: byte)
    requires x & 0xff == Extend(b)
    ensures LowByte(x) == b
  {
    hide LowByte, Extend;
    MaskTwice(x);
    LowByteMask(x, Extend(b));
    LowByteExtend(b);
  }

  predicate Spells(x: bv32, b0: byte, b1: byte, b2: byte, b3: byte) {
    LowByte(x >> 24) == b0 && LowByte(x >> 16) == b1 && LowByte(x >> 8) == b2 && LowByte(x) == b3
  }

  lemma IsSpelled(x: bv32, b0: byte, b1: byte, b2: byte, b3: byte)
    requires LowByte(x >> 24) == b0 && LowByte(x >> 16) == b1 && LowByte(x >> 8) == b2 && LowByte(x) == b3
    ensures Spells(x, b0, b1, b2, b3)
  {
    hide LowByte;
  }

  lemma SpelledBytes(x: bv32, b0: byte, b1: byte, b2: byte, b3: byte)
    requires Spells(x, b0, b1, b2, b3)
    ensures BytesOf(x) == [b0, b1, b2, b3]
  {
    hide LowByte;
  }

  lemma BytesOfHorner(w0: bv32, w1: bv32, w2: bv32, w3: bv32, x: bv32)
    requires w0 < 256 && w1 < 256 && w2 < 256 && w3 < 256 && x == Horner(w0, w1, w2, w3)
    ensures (x >> 24) & 0xff == w0 && (x >> 16) & 0xff == w1 && (x >> 8) & 0xff == w2 && x & 0xff == w3
  {
  }

  lemma HornerSpells(b0: byte, b1: byte, b2: byte, b3: byte, x: bv32)
    requires x == Horner(Extend(b0), Extend(b1), Extend(b2), Extend(b3))
    ensures Spells(x, b0, b1, b2, b3)
  {
    hide Horner, LowByte, Extend, Spells;
    ExtendIsSmall(b0);
    ExtendIsSmall(b1);
    ExtendIsSmall(b2);
    ExtendIsSmall(b3);
    BytesOfHorner(Extend(b0), Extend(b1), Extend(b2), Extend(b3), x);
    LowByteIs(x >> 24, b0);
    LowByteIs(x >> 16, b1);
    LowByteIs(x >> 8, b2);
    LowByteIs(x, b3);
    IsSpelled(x, b0, b1, b2, b3);
  }

  lemma BytesOfBits(b0: byte, b1: byte, b2: byte, b3: byte)
    ensures BytesOf(BitsOf(b0, b1, b2, b3)) == [b0, b1, b2, b3]
  {
    hide Horner, Extend, BytesOf, Spells;
    HornerSpells(b0, b1, b2, b3, BitsOf(b0, b1, b2, b3));
    SpelledBytes(BitsOf(b0, b1, b2, b3), b0, b1, b2, b3);
  }

  /** Four bytes are the bytes of the word read from them. */
  lemma ByteRoundTrip(b0: byte, b1: byte, b2: byte, b3: byte)
    ensures WordBytes(WordOf(b0, b1, b2, b3)) == [b0, b1, b2, b3]
  {
    hide BitsOf, BytesOf;
    BytesOfBits(b0, b1, b2, b3);
  }

  lemma FirstWord(block: seq<byte>, t: nat)
    requires |block| == 64 && t < 16
    ensures W(block, t) == WordOf(block[4 * t], block[4 * t + 1], block[4 * t + 2], block[4 * t + 3])
  {
    hide WordOf;
  }

  lemma FourOf(s: seq<byte>, i: nat)
    requires i + 4 <= |s|
    ensures s[i..i + 4] == [s[i], s[i + 1], s[i + 2], s[i + 3]]
  {
  }

  /** On the input side: a schedule word below 16 denotes the number that its four bytes of the block denote. */
  lemma ScheduleValue(block: seq<byte>, t: nat)
    requires |block| == 64 && t < 16
    ensures BitValue(W(block, t).bits, 0) == FromBigEndian(block[4 * t..4 * t + 4])
  {
    hide W, WordOf, WordBytes, BitValue, FromBigEndian;
    FirstWord(block, t);
    FourOf(block, 4 * t);
    ByteRoundTrip(block[4 * t], block[4 * t + 1], block[4 * t + 2], block[4 * t + 3]);
    WordBytesValue(W(block, t));
  }

  // ---------- Choose and majority ----------

  /** Where x has a one, choose takes the bits of y, elsewhere those of z. */
  lemma ChMeans(x: bv32, y: bv32, z: bv32)
    ensures ChBits(x, y, z) & x == y & x
    ensures ChBits(x, y, z) & !x == z & !x
  {
  }

  /** Majority has a one exactly where two of the words have. */
  lemma MajMeans(x: bv32, y: bv32, z: bv32)
    ensures MajBits(x, y, z) == (x & y) | (x & z) | (y & z)
  {
  }
}
