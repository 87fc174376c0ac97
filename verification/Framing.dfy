// Length-prefixed framing: `concat_len_prefixed` (host/receipt/src/lib.rs) and `concatLenPrefixed` (LeanTee/Hash.lean).

module Framing {
  import opened Bytes
  import opened Wrappers

  type bytes = seq<byte>

  /** A hash function.  Nothing is assumed of it, except 32-byte results where `Results32` is required. */
  type Digest = bytes -> bytes

  ghost predicate Results32(h: Digest) {
    forall m :: |h(m)| == 32
  }

  /** An explicit pair of different preimages with one hash. */
  predicate Collision(h: Digest, x: bytes, y: bytes) {
    x != y && h(x) == h(y)
  }

  /** `u32be(len) || bytes` per chunk; the length is cut to 32 bits as in the source. */
  function Concat(chunks: seq<bytes>): bytes {
    if chunks == [] then [] else BigEndian(|chunks[0]|, 4) + chunks[0] + Concat(chunks[1..])
  }

  /** The loop that grows the buffer. */
  method ConcatLenPrefixed(chunks: seq<bytes>) returns (acc: bytes)
    ensures acc == Concat(chunks)
  {
    hide BigEndian;
    acc := [];
    var i := 0;
    while i < |chunks|
      invariant 0 <= i <= |chunks|
      invariant acc == Concat(chunks[..i])
    {
      assert chunks[..i + 1] == chunks[..i] + [chunks[i]];
      ConcatSnoc(chunks[..i], chunks[i]);
      acc := acc + BigEndian(|chunks[i]|, 4);
      acc := acc + chunks[i];
      i := i + 1;
    }
    assert chunks[..|chunks|] == chunks;
  }

  lemma {:induction false} ConcatSnoc(chunks: seq<bytes>, c: bytes)
    ensures Concat(chunks + [c]) == Concat(chunks) + BigEndian(|c|, 4) + c
  {
    hide BigEndian;
    if chunks == [] {
      assert Concat([c][1..]) == [];
    } else {
      assert (chunks + [c])[1..] == chunks[1..] + [c];
      ConcatSnoc(chunks[1..], c);
    }
  }

  /** The reader that the framing implies. */
  function Decode(s: bytes): Option<seq<bytes>> {
    if s == [] then Some([])
    else if |s| < 4 then None
    else
      var n := FromBigEndian(s[..4]);
      if |s| < 4 + n then None
      else
        match Decode(s[4 + n..])
        case None => None
        case Some(rest) => Some([s[4..4 + n]] + rest)
  }

  predicate Small(chunks: seq<bytes>) {
    forall k :: 0 <= k < |chunks| ==> |chunks[k]| < 0x1_0000_0000
  }

  lemma Pow256Of4()
    ensures Pow256(4) == 0x1_0000_0000
  {
    assert Pow256(2) == 0x1_0000;
  }

  lemma LengthRoundTrip(n: nat)
    requires n < 0x1_0000_0000
    ensures FromBigEndian(BigEndian(n, 4)) == n
  {
    hide BigEndian, FromBigEndian, Pow256;
    BigEndianRoundTrip(n, 4);
    Pow256Of4();
  }

  lemma LengthBound(s: bytes)
    requires |s| == 4
    ensures FromBigEndian(s) < 0x1_0000_0000
  {
    hide FromBigEndian, Pow256;
    FromBigEndianBound(s);
    Pow256Of4();
  }

  lemma DecodeFirst(c: bytes, rest: bytes)
    requires |c| < 0x1_0000_0000
    ensures Decode(BigEndian(|c|, 4) + c + rest) ==
      match Decode(rest) { case None => None case Some(cs) => Some([c] + cs) }
  {
    hide BigEndian, FromBigEndian;
    var s := BigEndian(|c|, 4) + c + rest;
    LengthRoundTrip(|c|);
    assert s[..4] == BigEndian(|c|, 4);
    assert s[4..4 + |c|] == c;
    assert s[4 + |c|..] == rest;
  }

  lemma {:induction false} DecodeConcat(chunks: seq<bytes>)
    requires Small(chunks)
    ensures Decode(Concat(chunks)) == Some(chunks)
  {
    hide BigEndian, Decode;
    if chunks == [] {
      assert Decode([]) == Some([]) by { DecodeNothing(); }
    } else {
      DecodeConcat(chunks[1..]);
      DecodeFirst(chunks[0], Concat(chunks[1..]));
      assert chunks == [chunks[0]] + chunks[1..];
    }
  }

  lemma DecodeNothing()
    ensures Decode([]) == Some([])
  {
  }

  lemma SmallCons(c: bytes, rest: seq<bytes>)
    requires |c| < 0x1_0000_0000 && Small(rest)
    ensures Small([c] + rest)
  {
  }

  lemma {:induction false} DecodedIsSmall(s: bytes)
    requires Decode(s).Some?
    ensures Small(Decode(s).value)
  {
    hide FromBigEndian;
    if s != [] {
      var n := FromBigEndian(s[..4]);
      LengthBound(s[..4]);
      DecodedIsSmall(s[4 + n..]);
      SmallCons(s[4..4 + n], Decode(s[4 + n..]).value);
    }
  }

  /** The framing is read back exactly when every chunk length fits in its 32-bit prefix. */
  lemma FramingRoundTrip(chunks: seq<bytes>)
    ensures Decode(Concat(chunks)) == Some(chunks) <==> Small(chunks)
  {
    hide Concat, Decode, Small;
    if Small(chunks) {
      DecodeConcat(chunks);
    }
    if Decode(Concat(chunks)) == Some(chunks) {
      DecodedIsSmall(Concat(chunks));
    }
  }

  /** Unique decodability, for lists of any lengths. */
  lemma ConcatInjective(a: seq<bytes>, b: seq<bytes>)
    requires Small(a) && Small(b) && Concat(a) == Concat(b)
    ensures a == b
  {
    hide Concat, Decode, Small;
    DecodeConcat(a);
    DecodeConcat(b);
  }

  function Empties(n: nat): seq<bytes> {
    if n == 0 then [] else [[]] + Empties(n - 1)
  }

  lemma {:induction false} ConcatEmpties(n: nat)
    ensures |Empties(n)| == n && Concat(Empties(n)) == Zeros(4 * n)
  {
    hide BigEndian;
    if n != 0 {
      ConcatEmpties(n - 1);
      assert Empties(n)[1..] == Empties(n - 1);
      FourZeros();
      assert Zeros(4 * n) == Zeros(4) + [] + Zeros(4 * n - 4);
    }
  }

  lemma FourZeros()
    ensures BigEndian(0, 4) == Zeros(4)
  {
    assert BigEndian(0, 2) == [0, 0];
  }

  /** Beyond 32 bits the framing is ambiguous: one chunk of 2^32 zero bytes reads as 2^30 + 1 empty chunks. */
  lemma LongChunkIsAmbiguous()
    ensures Concat([Zeros(0x1_0000_0000)]) == Concat(Empties(0x4000_0001))
  {
    hide BigEndian, FromBigEndian, Pow256;
    var big := Zeros(0x1_0000_0000);
    ConcatEmpties(0x4000_0001);
    BigEndianRoundTrip(0x1_0000_0000, 4);
    Pow256Of4();
    FromBigEndianRoundTrip(BigEndian(0x1_0000_0000, 4));
    FourZeros();
    assert Concat([big][1..]) == [];
    assert Zeros(0x1_0000_0004) == Zeros(4) + big;
  }

  /** The loop of `bytesEq`. */
  method BytesEq(a: bytes, b: bytes) returns (eq: bool)
    ensures eq <==> a == b
  {
    if |a| != |b| {
      return false;
    }
    var i := 0;
    while i < |a|
      invariant 0 <= i <= |a|
      invariant forall k :: 0 <= k < i ==> a[k] == b[k]
    {
      if a[i] != b[i] {
        return false;
      }
      i := i + 1;
    }
    return true;
  }

  /** The framing of two chunks, byte by byte. */
  lemma ConcatExample()
    ensures Concat([[0x61, 0x62], [0x63]]) == [0, 0, 0, 2, 0x61, 0x62, 0, 0, 0, 1, 0x63]
  {
    hide BigEndian;
    SmallPrefix(2);
    SmallPrefix(1);
    var cs := [[0x61, 0x62], [0x63]];
    assert cs[1..] == [[0x63]] && [[0x63]][1..] == [];
    assert Concat([[0x63]]) == [0, 0, 0, 1] + [0x63] + [];
  }

  lemma SmallPrefix(n: nat)
    requires n < 256
    ensures BigEndian(n, 4) == [0, 0, 0, n]
  {
    FourZeros();
    assert BigEndian(n / 256, 3) == BigEndian(0, 3);
    assert BigEndian(0, 1) == [0] && BigEndian(0, 2) == [0, 0];
  }
}
