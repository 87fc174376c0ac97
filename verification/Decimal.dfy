// Decimal numerals: LeanTee/GuestProg.lean `natToDec` and `parseNatDec?`, and Rust's `usize` parser.

module Decimal {
  import opened Wrappers
  import opened Text

  const USIZE_MAX: nat := 0xFFFF_FFFF_FFFF_FFFF

  predicate IsDigit(c: char) {
    '0' <= c <= '9'
  }

  function Digit(k: nat): (c: char)
    requires k < 10
    ensures IsDigit(c) && DigitValue(c) == k
  {
    ('0' as int + k) as char
  }

  function DigitValue(c: char): (k: nat)
    requires IsDigit(c)
    ensures k < 10
  {
    c as int - '0' as int
  }

  predicate AllDigits(s: string) {
    forall i :: 0 <= i < |s| ==> IsDigit(s[i])
  }

  /** The numeral of n without leading zeros. */
  function NatToDec(n: nat): (s: string)
    ensures s != "" && AllDigits(s)
  {
    if n < 10 then [Digit(n)] else NatToDec(n / 10) + [Digit(n % 10)]
  }

  /** The number that a string of digits denotes. */
  function DecValue(s: string): nat
    requires AllDigits(s)
  {
    if s == "" then 0 else DecValue(s[..|s| - 1]) * 10 + DigitValue(s[|s| - 1])
  }

  /** `parseNatDec?`. */
  function ParseNatDec(s: string): Option<nat> {
    if s == "" || !AllDigits(s) then None else Some(DecValue(s))
  }

  /** `str::parse::<usize>`: one leading plus sign is allowed, and the value must fit. */
  function ParseUsize(s: string): Option<nat> {
    var digits := if s != "" && s[0] == '+' then s[1..] else s;
    match ParseNatDec(digits)
    case Some(n) => if n <= USIZE_MAX then Some(n) else None
    case None => None
  }

  /** Reading a printed number gives it back, for every number. */
  lemma {:induction false} DecRoundTrip(n: nat)
    ensures DecValue(NatToDec(n)) == n
    ensures ParseNatDec(NatToDec(n)) == Some(n)
  {
    var s := NatToDec(n);
    if n >= 10 {
      DecRoundTrip(n / 10);
      assert s[..|s| - 1] == NatToDec(n / 10);
    } else {
      assert DecValue(s[..0]) == 0;
    }
  }

  /** No numeral of the same value is shorter than the printed one. */
  lemma {:induction false} PrintedIsShortest(s: string)
    requires s != "" && AllDigits(s)
    ensures |NatToDec(DecValue(s))| <= |s|
  {
    var t := s[..|s| - 1];
    if t != "" {
      PrintedIsShortest(t);
      var v, k := DecValue(t), DigitValue(s[|s| - 1]);
      assert DecValue(s) == v * 10 + k;
      if v * 10 + k >= 10 {
        assert (v * 10 + k) / 10 == v;
      }
    }
  }

  /** Rust reads back what it prints exactly when the number is a `usize`. */
  lemma UsizeRoundTrip(n: nat)
    ensures ParseUsize(NatToDec(n)) == Some(n) <==> n < 0x1_0000_0000_0000_0000
  {
    hide NatToDec, DecValue;
    DecRoundTrip(n);
    assert IsDigit(NatToDec(n)[0]);
  }

  /** The two readers agree except on a plus sign and on numbers that do not fit. */
  lemma ReadersAgree(s: string)
    ensures ParseUsize(s) == ParseNatDec(s) <==>
      !(|s| > 1 && s[0] == '+' && AllDigits(s[1..]) && DecValue(s[1..]) <= USIZE_MAX) &&
      !(s != "" && AllDigits(s) && DecValue(s) > USIZE_MAX)
  {
    hide DecValue;
    if s != "" && s[0] == '+' {
      assert !IsDigit(s[0]);
    }
  }

  lemma {:induction false} DigitsSize(s: string)
    requires AllDigits(s)
    ensures Size(s) == |s|
  {
    if s != "" {
      hide EncodeChar;
      assert IsDigit(s[0]);
      SizeOfAscii(s[0]);
      DigitsSize(s[1..]);
      assert s == [s[0]] + s[1..];
      EncodeAppend([s[0]], s[1..]);
    }
  }

  lemma DigitsTrimmed(d: Dialect, s: string)
    requires AllDigits(s)
    ensures Trimmed(d, s) && Free(s, '\n')
  {
    if s != "" {
      assert IsDigit(s[0]) && IsDigit(s[|s| - 1]);
    }
  }

  function SignificantDigits(x: nat): string {
    if x == 0 then "" else NatToDec(x)
  }

  lemma LastDigit(x: nat, digits: string)
    requires x > 0
    ensures SignificantDigits(x) + digits == SignificantDigits(x / 10) + ([Digit(x % 10)] + digits)
  {
    hide Digit;
    assert SignificantDigits(x) == SignificantDigits(x / 10) + [Digit(x % 10)];
  }

  /** The loop of `natToDec`. */
  method NatToDecLoop(n: nat) returns (s: string)
    ensures s == NatToDec(n)
  {
    if n == 0 {
      return "0";
    }
    var digits := "";
    var x := n;
    while x > 0
      invariant NatToDec(n) == SignificantDigits(x) + digits
    {
      hide Digit;
      LastDigit(x, digits);
      digits := [Digit(x % 10)] + digits;
      x := x / 10;
    }
    assert SignificantDigits(0) + digits == digits;
    return digits;
  }

  /** The loop of `parseNatDec?`. */
  method ParseNatDecLoop(s: string) returns (r: Option<nat>)
    ensures r == ParseNatDec(s)
  {
    if s == "" {
      return None;
    }
    var n := 0;
    var i := 0;
    while i < |s|
      invariant 0 <= i <= |s|
      invariant AllDigits(s[..i]) && n == DecValue(s[..i])
    {
      var c := s[i];
      if !('0' <= c <= '9') {
        return None;
      }
      assert s[..i + 1][..i] == s[..i];
      n := n * 10 + DigitValue(c);
      i := i + 1;
    }
    assert s[..|s|] == s;
    return Some(n);
  }

  lemma DigitText(k: nat)
    requires k < 10
    ensures Digit(k) == "0123456789"[k]
  {
  }

  /** The most significant digit comes first. */
  lemma DecExample()
    ensures NatToDec(1203) == "1203" && NatToDec(0) == "0" && ParseNatDec("0120") == Some(120)
  {
    assert NatToDec(12) == "12" && NatToDec(120) == "120";
    assert "0120"[..3] == "012" && "012"[..2] == "01" && "01"[..1] == "0" && "0"[..0] == "";
    assert DecValue("0") == 0 && DecValue("01") == 1 && DecValue("012") == 12;
  }

  /** Nothing but digits, except that Rust takes one plus sign. */
  lemma SignExample()
    ensures ParseNatDec("") == None && ParseNatDec("12a") == None && ParseUsize("-7") == None
    ensures ParseUsize("+7") == Some(7) && ParseNatDec("+7") == None
  {
    assert !IsDigit("12a"[2]) && !IsDigit("+7"[0]) && !IsDigit("-7"[0]);
    assert "+7"[1..] == "7" && "7"[..0] == "";
  }
}
