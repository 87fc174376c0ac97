// Hexadecimal text: `hexEncode` and `hexDecode` (LeanTee/Guest.lean), `hexDecode?` (LeanTee/Hash.lean).

module Hex {
  import opened Bytes
  import opened Wrappers
  import opened Text

  function HexDigit(n: nat): (c: char)
    requires n < 16
    ensures HexVal(c) == Some(n)
  {
    if n < 10 then ('0' as int + n) as char else ('a' as int + (n - 10)) as char
  }

  function HexVal(c: char): (v: Option<nat>)
    ensures v.Some? ==> v.value < 16
  {
    if '0' <= c <= '9' then Some(c as int - '0' as int)
    else if 'a' <= c <= 'f' then Some(c as int - 'a' as int + 10)
    else if 'A' <= c <= 'F' then Some(c as int - 'A' as int + 10)
    else None
  }

  function HexEncode(b: seq<byte>): (s: string)
    ensures |s| == 2 * |b|
  {
    if b == [] then "" else [HexDigit(b[0] / 16), HexDigit(b[0] % 16)] + HexEncode(b[1..])
  }

  /** `hexDecode?` on the characters themselves. */
  function HexDecodeStrict(s: string): Option<seq<byte>> {
    if s == "" then Some([])
    else if |s| == 1 then None
    else
      match (HexVal(s[0]), HexVal(s[1]), HexDecodeStrict(s[2..]))
      case (Some(hi), Some(lo), Some(rest)) => Some([hi * 16 + lo] + rest)
      case _ => None
  }

  function WithoutSpace(s: string): string {
    if s == "" then "" else (if IsSpace(Lean, s[0]) then "" else [s[0]]) + WithoutSpace(s[1..])
  }

  /** `Guest.hexDecode`, which first drops white space. */
  function HexDecode(s: string): Option<seq<byte>> {
    HexDecodeStrict(WithoutSpace(s))
  }

  function LowerHex(c: char): char {
    if 'A' <= c <= 'F' then (c as int - 'A' as int + 'a' as int) as char else c
  }

  function Lower(s: string): string {
    if s == "" then "" else [LowerHex(s[0])] + Lower(s[1..])
  }

  lemma {:induction false} HexRoundTrip(b: seq<byte>)
    ensures HexDecodeStrict(HexEncode(b)) == Some(b)
  {
    hide HexVal, HexDigit;
    if b != [] {
      var s := HexEncode(b);
      HexRoundTrip(b[1..]);
      assert s[2..] == HexEncode(b[1..]);
      assert s[0] == HexDigit(b[0] / 16) && s[1] == HexDigit(b[0] % 16);
      assert b == [b[0]] + b[1..];
    }
  }

  lemma HexInjective(a: seq<byte>, b: seq<byte>)
    requires HexEncode(a) == HexEncode(b)
    ensures a == b
  {
    HexRoundTrip(a);
    HexRoundTrip(b);
  }

  lemma HexDigitOfVal(c: char)
    requires HexVal(c).Some?
    ensures HexDigit(HexVal(c).value) == LowerHex(c)
  {
  }

  /** Re-encoding what was decoded gives the text in lower case. */
  lemma {:induction false} DecodeThenEncode(s: string)
    requires HexDecodeStrict(s).Some?
    ensures HexEncode(HexDecodeStrict(s).value) == Lower(s)
  {
    hide HexVal, HexDigit, LowerHex;
    if s != "" {
      DecodeThenEncode(s[2..]);
      HexDigitOfVal(s[0]);
      HexDigitOfVal(s[1]);
      assert s[1..][1..] == s[2..];
      var b := HexDecodeStrict(s).value;
      assert b[1..] == HexDecodeStrict(s[2..]).value;
    }
  }

  lemma {:induction false} WithoutSpaceFixed(s: string)
    requires forall i :: 0 <= i < |s| ==> !IsSpace(Lean, s[i])
    ensures WithoutSpace(s) == s
  {
    if s != "" {
      WithoutSpaceFixed(s[1..]);
    }
  }

  lemma HexDigitIsNotSpace(n: nat)
    requires n < 16
    ensures !IsSpace(Lean, HexDigit(n))
  {
  }

  lemma {:induction false} EncodedHasNoSpace(b: seq<byte>, i: nat)
    requires i < 2 * |b|
    ensures !IsSpace(Lean, HexEncode(b)[i])
  {
    hide IsSpace, HexDigit, HexVal;
    HexDigitIsNotSpace(b[0] / 16);
    HexDigitIsNotSpace(b[0] % 16);
    if i >= 2 {
      EncodedHasNoSpace(b[1..], i - 2);
    }
  }

  /** Both decoders read every encoded text back, and they agree wherever there is no white space. */
  lemma DecodersAgree(b: seq<byte>, s: string)
    requires forall i :: 0 <= i < |s| ==> !IsSpace(Lean, s[i])
    ensures HexDecode(s) == HexDecodeStrict(s)
    ensures HexDecode(HexEncode(b)) == Some(b)
  {
    hide HexEncode, HexDecodeStrict, WithoutSpace, IsSpace;
    WithoutSpaceFixed(s);
    forall i | 0 <= i < |HexEncode(b)|
      ensures !IsSpace(Lean, HexEncode(b)[i])
    {
      EncodedHasNoSpace(b, i);
    }
    WithoutSpaceFixed(HexEncode(b));
    HexRoundTrip(b);
  }

  lemma {:induction false} WithoutSpaceAppend(a: string, b: string)
    ensures WithoutSpace(a + b) == WithoutSpace(a) + WithoutSpace(b)
  {
    hide IsSpace;
    if a == "" {
      assert a + b == b;
    } else {
      assert (a + b)[1..] == a[1..] + b;
      WithoutSpaceAppend(a[1..], b);
    }
  }

  /** Lean's decoder reads a text as if its white space were not there. */
  lemma SpaceIsIgnored(a: string, c: char, b: string)
    requires IsSpace(Lean, c)
    ensures HexDecode(a + [c] + b) == HexDecode(a + b)
  {
    hide HexDecodeStrict, IsSpace;
    WithoutSpaceAppend(a + [c], b);
    WithoutSpaceAppend(a, [c]);
    WithoutSpaceAppend(a, b);
    assert WithoutSpace([c][1..]) == "";
    assert WithoutSpace([c]) == "";
    assert WithoutSpace(a) + "" == WithoutSpace(a);
  }

  lemma {:induction false} HexEncodeSnoc(b: seq<byte>, x: byte)
    ensures HexEncode(b + [x]) == HexEncode(b) + [HexDigit(x / 16)] + [HexDigit(x % 16)]
  {
    hide HexDigit;
    if b == [] {
      assert HexEncode([x][1..]) == "";
    } else {
      assert (b + [x])[1..] == b[1..] + [x];
      HexEncodeSnoc(b[1..], x);
    }
  }

  /** The loop of `hexEncode`. */
  method HexEncodeLoop(b: seq<byte>) returns (s: string)
    ensures s == HexEncode(b)
  {
    hide HexDigit, HexEncode;
    s := "";
    var i := 0;
    assert b[..0] == [];
    while i < |b|
      invariant 0 <= i <= |b|
      invariant s == HexEncode(b[..i])
    {
      assert b[..i + 1] == b[..i] + [b[i]];
      HexEncodeSnoc(b[..i], b[i]);
      s := s + [HexDigit(b[i] / 16)];
      s := s + [HexDigit(b[i] % 16)];
      i := i + 1;
    }
    assert b[..|b|] == b;
  }

  function Prepend(out: seq<byte>, r: Option<seq<byte>>): Option<seq<byte>> {
    match r
    case None => None
    case Some(rest) => Some(out + rest)
  }

  lemma PrependStep(out: seq<byte>, s: string, i: nat)
    requires i + 1 < |s|
    ensures Prepend(out, HexDecodeStrict(s[i..])) ==
      match (HexVal(s[i]), HexVal(s[i + 1]))
      case (Some(hi), Some(lo)) => Prepend(out + [hi * 16 + lo], HexDecodeStrict(s[i + 2..]))
      case _ => None
  {
    hide HexVal;
    var t := s[i..];
    assert t[0] == s[i] && t[1] == s[i + 1] && t[2..] == s[i + 2..];
    match (HexVal(s[i]), HexVal(s[i + 1]), HexDecodeStrict(s[i + 2..])) {
      case (Some(hi), Some(lo), Some(rest)) =>
        assert out + ([hi * 16 + lo] + rest) == out + [hi * 16 + lo] + rest;
      case _ =>
    }
  }

  /** The loop of `hexDecode?` and, after its filter, of `hexDecode`. */
  method HexDecodeLoop(s: string) returns (r: Option<seq<byte>>)
    ensures r == HexDecodeStrict(s)
  {
    hide HexVal, HexDecodeStrict, Prepend;
    if |s| % 2 != 0 {
      OddLengthFails(s);
      return None;
    }
    var out: seq<byte> := [];
    var i := 0;
    PrependNothing(s);
    while i + 1 < |s|
      invariant 0 <= i <= |s| && i % 2 == 0
      invariant HexDecodeStrict(s) == Prepend(out, HexDecodeStrict(s[i..]))
    {
      var hi, lo := HexVal(s[i]), HexVal(s[i + 1]);
      PrependStep(out, s, i);
      if hi == None || lo == None {
        return None;
      }
      out := out + [hi.value * 16 + lo.value];
      i := i + 2;
    }
    PrependDone(out);
    assert s[i..] == "";
    return Some(out);
  }

  lemma PrependNothing(s: string)
    ensures HexDecodeStrict(s) == Prepend([], HexDecodeStrict(s[0..]))
  {
    assert s[0..] == s;
    var r := HexDecodeStrict(s);
    if r.Some? {
      assert [] + r.value == r.value;
    }
  }

  lemma PrependDone(out: seq<byte>)
    ensures Prepend(out, HexDecodeStrict("")) == Some(out)
  {
    assert out + [] == out;
  }

  lemma {:induction false} OddLengthFails(s: string)
    requires |s| % 2 == 1
    ensures HexDecodeStrict(s) == None
  {
    hide HexVal;
    if |s| > 1 {
      OddLengthFails(s[2..]);
    }
  }

  /** The digits, in their order; capitals are read too. */
  lemma HexDigits(n: nat)
    requires n < 16
    ensures HexDigit(n) == "0123456789abcdef"[n]
    ensures HexVal("0123456789abcdef"[n]) == HexVal("0123456789ABCDEF"[n]) == Some(n)
  {
  }

  /** The high half of a byte comes first. */
  lemma HexExample()
    ensures HexEncode([0x1F, 0xA0]) == "1fa0"
  {
    assert HexEncode([0x1F, 0xA0][1..]) == "a0" by {
      assert HexEncode([0xA0][1..]) == "";
    }
  }
}
