// Text as sequences of Unicode scalar values, its UTF-8 bytes, and the string operations that the Lean code and the
// Rust code use.  `Dialect` says whose operation is meant where the two languages differ.

module Text {
  import opened Bytes
  import opened Wrappers

  datatype Dialect = Rust | Lean

  // ---------- UTF-8 ----------

  function EncodeChar(c: char): (s: seq<byte>)
    ensures 1 <= |s| <= 4
  {
    var v := c as int;
    if v < 0x80 then [v]
    else if v < 0x800 then [0xC0 + v / 64, 0x80 + v % 64]
    else if v < 0x1_0000 then [0xE0 + v / 4096, 0x80 + v / 64 % 64, 0x80 + v % 64]
    else [0xF0 + v / 262144, 0x80 + v / 4096 % 64, 0x80 + v / 64 % 64, 0x80 + v % 64]
  }

  function Encode(s: string): seq<byte> {
    if s == "" then [] else EncodeChar(s[0]) + Encode(s[1..])
  }

  /** The number of bytes of a text. */
  function Size(s: string): nat {
    |Encode(s)|
  }

  lemma {:induction false} EncodeAppend(s: string, t: string)
    ensures Encode(s + t) == Encode(s) + Encode(t)
    ensures Size(s + t) == Size(s) + Size(t)
  {
    hide EncodeChar;
    if s == "" {
      assert s + t == t;
    } else {
      assert (s + t)[1..] == s[1..] + t;
      EncodeAppend(s[1..], t);
    }
  }

  /** The lead byte fixes the number of bytes, and the bytes fix the character. */
  lemma EncodeCharPrefix(c: char, d: char, x: seq<byte>, y: seq<byte>)
    requires EncodeChar(c) + x == EncodeChar(d) + y
    ensures c == d && x == y
  {
    var s, t := EncodeChar(c) + x, EncodeChar(d) + y;
    assert s[0] == EncodeChar(c)[0] && t[0] == EncodeChar(d)[0];
    assert |EncodeChar(c)| == |EncodeChar(d)|;
    assert forall i :: 0 <= i < |EncodeChar(c)| ==> EncodeChar(c)[i] == s[i] == EncodeChar(d)[i];
    CharOfBytes(c);
    CharOfBytes(d);
    assert x == s[|EncodeChar(c)|..] == y;
  }

  /** The character that a sequence of one to four bytes encodes. */
  function DecodeChar(s: seq<byte>): int
    requires 1 <= |s| <= 4
  {
    var lead: int := s[0];
    if |s| == 1 then lead
    else if |s| == 2 then (lead - 0xC0) * 64 + Payload(s[1])
    else if |s| == 3 then (lead - 0xE0) * 4096 + Payload(s[1]) * 64 + Payload(s[2])
    else (lead - 0xF0) * 262144 + Payload(s[1]) * 4096 + Payload(s[2]) * 64 + Payload(s[3])
  }

  function Payload(b: byte): int {
    var v: int := b;
    v - 0x80
  }

  lemma CharOfBytes(c: char)
    ensures DecodeChar(EncodeChar(c)) == c as int
  {
    var v := c as int;
    if 0x1_0000 <= v {
      FourDigits(v);
    }
  }

  lemma FourDigits(v: nat)
    ensures v / 262144 * 262144 + v / 4096 % 64 * 4096 + v / 64 % 64 * 64 + v % 64 == v
  {
    var a := v / 64;
    var b := a / 64;
    var c := b / 64;
    assert v == 64 * a + v % 64 && a == 64 * b + a % 64 && b == 64 * c + b % 64;
    DivModUnique(v, 4096, b, a % 64 * 64 + v % 64);
    DivModUnique(v, 262144, c, b % 64 * 4096 + a % 64 * 64 + v % 64);
  }

  lemma {:induction false} EncodeInjective(s: string, t: string)
    requires Encode(s) == Encode(t)
    ensures s == t
  {
    hide EncodeChar;
    if s != "" && t != "" {
      EncodeCharPrefix(s[0], t[0], Encode(s[1..]), Encode(t[1..]));
      EncodeInjective(s[1..], t[1..]);
      assert s == [s[0]] + s[1..] && t == [t[0]] + t[1..];
    }
  }

  function LeadLength(b: byte): nat {
    if b < 0x80 then 1 else if b < 0xE0 then 2 else if b < 0xF0 then 3 else 4
  }

  /** Unicode scalar values: no surrogates. */
  predicate IsScalar(v: int) {
    0 <= v < 0xD800 || 0xE000 <= v < 0x11_0000
  }

  /** Strict decoding, one character at a time: no truncated, overlong or out-of-range sequence. */
  function FromUtf8(b: seq<byte>): Option<string> {
    if b == [] then Some("")
    else
      var n := LeadLength(b[0]);
      if n > |b| then None
      else
        var v := DecodeChar(b[..n]);
        if !IsScalar(v) || EncodeChar(v as char) != b[..n] then None
        else
          match FromUtf8(b[n..])
          case None => None
          case Some(s) => Some([v as char] + s)
  }

  /** Decoding undoes encoding: every text is read back. */
  lemma {:induction false} FromUtf8OfEncode(s: string)
    ensures FromUtf8(Encode(s)) == Some(s)
  {
    hide DecodeChar, EncodeChar, LeadLength;
    if s != "" {
      var e, rest := EncodeChar(s[0]), Encode(s[1..]);
      var b := e + rest;
      assert b[..|e|] == e && b[|e|..] == rest && b[0] == e[0];
      LeadOfEncode(s[0]);
      CharOfBytes(s[0]);
      FromUtf8OfEncode(s[1..]);
      assert s == [s[0]] + s[1..];
    }
  }

  lemma LeadOfEncode(c: char)
    ensures LeadLength(EncodeChar(c)[0]) == |EncodeChar(c)|
  {
  }

  /** Encoding undoes decoding: only the bytes of a text are accepted. */
  lemma {:induction false} FromUtf8Text(b: seq<byte>)
    requires FromUtf8(b).Some?
    ensures Encode(FromUtf8(b).value) == b
  {
    hide DecodeChar, EncodeChar, LeadLength;
    if b != [] {
      var n := LeadLength(b[0]);
      FromUtf8Text(b[n..]);
      var s := FromUtf8(b).value;
      assert s[1..] == FromUtf8(b[n..]).value;
      assert b == b[..n] + b[n..];
    }
  }

  lemma {:induction false} EncodeBound(s: string)
    ensures Size(s) <= 4 * |s|
  {
    hide EncodeChar;
    if s != "" {
      EncodeBound(s[1..]);
    }
  }

  // ---------- White space ----------

  /** Rust's `char::is_whitespace` (Unicode White_Space) and Lean's `Char.isWhitespace`. */
  predicate IsSpace(d: Dialect, c: char) {
    match d
    case Lean => c == ' ' || c == '\t' || c == '\r' || c == '\n'
    case Rust =>
      var v := c as int;
      9 <= v <= 13 || v == 0x20 || v == 0x85 || v == 0xA0 || v == 0x1680 || 0x2000 <= v <= 0x200A ||
      v == 0x2028 || v == 0x2029 || v == 0x202F || v == 0x205F || v == 0x3000
  }

  function TrimStart(d: Dialect, s: string): string {
    if s != "" && IsSpace(d, s[0]) then TrimStart(d, s[1..]) else s
  }

  function TrimEnd(d: Dialect, s: string): string {
    if s != "" && IsSpace(d, s[|s| - 1]) then TrimEnd(d, s[..|s| - 1]) else s
  }

  function Trim(d: Dialect, s: string): string {
    TrimEnd(d, TrimStart(d, s))
  }

  predicate Trimmed(d: Dialect, s: string) {
    s == "" || (!IsSpace(d, s[0]) && !IsSpace(d, s[|s| - 1]))
  }

  lemma {:induction false} TrimStartSlice(d: Dialect, s: string) returns (i: nat)
    ensures i <= |s| && TrimStart(d, s) == s[i..]
    ensures i == |s| || !IsSpace(d, s[i])
  {
    hide IsSpace;
    if s != "" && IsSpace(d, s[0]) {
      var j := TrimStartSlice(d, s[1..]);
      i := j + 1;
      assert s[1..][j..] == s[i..];
    } else {
      i := 0;
    }
  }

  lemma {:induction false} TrimEndSlice(d: Dialect, s: string) returns (j: nat)
    ensures j <= |s| && TrimEnd(d, s) == s[..j]
    ensures j == 0 || !IsSpace(d, s[j - 1])
  {
    hide IsSpace;
    if s != "" && IsSpace(d, s[|s| - 1]) {
      j := TrimEndSlice(d, s[..|s| - 1]);
      assert s[..|s| - 1][..j] == s[..j];
    } else {
      j := |s|;
    }
  }

  /** Trimming gives a slice with no white space at either end. */
  lemma TrimSlice(d: Dialect, s: string) returns (i: nat, j: nat)
    ensures i <= j <= |s| && Trim(d, s) == s[i..j] && Trimmed(d, Trim(d, s))
  {
    hide IsSpace, TrimStart, TrimEnd;
    i := TrimStartSlice(d, s);
    var k := TrimEndSlice(d, s[i..]);
    j := i + k;
    assert s[i..][..k] == s[i..j];
    if k != 0 {
      assert s[i..j][0] == s[i] && s[i..j][k - 1] == s[i..][k - 1];
    }
  }

  lemma TrimFixed(d: Dialect, s: string)
    requires Trimmed(d, s)
    ensures Trim(d, s) == s
  {
  }

  /** A trimmed text takes no more bytes. */
  lemma TrimSize(d: Dialect, s: string)
    ensures Size(Trim(d, s)) <= Size(s)
  {
    hide Encode, Trim;
    var i, j := TrimSlice(d, s);
    SliceSize(s, i, j);
  }

  lemma SliceSize(s: string, i: nat, j: nat)
    requires i <= j <= |s|
    ensures Size(s[i..j]) <= Size(s)
  {
    hide Encode;
    assert s == s[..i] + s[i..j] + s[j..];
    EncodeAppend(s[..i] + s[i..j], s[j..]);
    EncodeAppend(s[..i], s[i..j]);
  }

  /** White space that both languages see. */
  predicate Plain(s: string) {
    forall i :: 0 <= i < |s| ==> IsSpace(Rust, s[i]) ==> IsSpace(Lean, s[i])
  }

  lemma LeanSpaceIsRustSpace(c: char)
    ensures IsSpace(Lean, c) ==> IsSpace(Rust, c)
  {
  }

  lemma {:induction false} TrimStartAgrees(s: string)
    requires Plain(s)
    ensures TrimStart(Rust, s) == TrimStart(Lean, s)
  {
    hide IsSpace;
    if s != "" {
      LeanSpaceIsRustSpace(s[0]);
      TrimStartAgrees(s[1..]);
    }
  }

  lemma {:induction false} TrimEndAgrees(s: string)
    requires Plain(s)
    ensures TrimEnd(Rust, s) == TrimEnd(Lean, s)
  {
    hide IsSpace;
    if s != "" {
      LeanSpaceIsRustSpace(s[|s| - 1]);
      TrimEndAgrees(s[..|s| - 1]);
    }
  }

  lemma TrimAgrees(s: string)
    requires Plain(s)
    ensures Trim(Rust, s) == Trim(Lean, s)
  {
    hide IsSpace, TrimStart, TrimEnd;
    TrimStartAgrees(s);
    var i := TrimStartSlice(Rust, s);
    TrimEndAgrees(s[i..]);
  }

  // ---------- Splitting and joining ----------

  predicate Free(s: string, c: char) {
    forall i :: 0 <= i < |s| ==> s[i] != c
  }

  function Split(s: string, sep: char): (ps: seq<string>)
    ensures |ps| >= 1
  {
    if s == "" then [""]
    else
      var rest := Split(s[1..], sep);
      if s[0] == sep then [""] + rest else [[s[0]] + rest[0]] + rest[1..]
  }

  function Join(ps: seq<string>, sep: char): string {
    if ps == [] then "" else if |ps| == 1 then ps[0] else ps[0] + [sep] + Join(ps[1..], sep)
  }

  lemma {:induction false} SplitPieces(s: string, sep: char)
    ensures forall k :: 0 <= k < |Split(s, sep)| ==> Free(Split(s, sep)[k], sep)
    ensures Join(Split(s, sep), sep) == s
  {
    if s != "" {
      SplitPieces(s[1..], sep);
      var rest := Split(s[1..], sep);
      assert s == [s[0]] + s[1..];
      if s[0] == sep {
        assert ([""] + rest)[1..] == rest;
      } else {
        assert ([[s[0]] + rest[0]] + rest[1..])[1..] == rest[1..];
      }
    }
  }

  lemma {:induction false} SplitFree(s: string, sep: char)
    requires Free(s, sep)
    ensures Split(s, sep) == [s]
  {
    if s != "" {
      SplitFree(s[1..], sep);
      assert s == [s[0]] + s[1..];
    }
  }

  lemma {:induction false} SplitAtSeparator(s: string, sep: char, t: string)
    requires Free(s, sep)
    ensures Split(s + [sep] + t, sep) == [s] + Split(t, sep)
  {
    var u := s + [sep] + t;
    if s == "" {
      assert u[1..] == t;
    } else {
      assert u[1..] == s[1..] + [sep] + t;
      SplitAtSeparator(s[1..], sep, t);
      assert s == [s[0]] + s[1..];
    }
  }

  lemma {:induction false} SplitOfJoin(ps: seq<string>, sep: char)
    requires ps != []
    requires forall k :: 0 <= k < |ps| ==> Free(ps[k], sep)
    ensures Split(Join(ps, sep), sep) == ps
  {
    hide Split, Free;
    if |ps| == 1 {
      SplitFree(ps[0], sep);
    } else {
      SplitOfJoin(ps[1..], sep);
      SplitAtSeparator(ps[0], sep, Join(ps[1..], sep));
    }
  }

  /** Bytes of all the texts, plus one for each. */
  function Total(ps: seq<string>): nat {
    if ps == [] then 0 else Size(ps[0]) + 1 + Total(ps[1..])
  }

  lemma {:induction false} TotalAppend(a: seq<string>, b: seq<string>)
    ensures Total(a + b) == Total(a) + Total(b)
  {
    hide Size;
    if a == [] {
      assert a + b == b;
    } else {
      assert (a + b)[1..] == a[1..] + b;
      TotalAppend(a[1..], b);
    }
  }

  lemma {:induction false} JoinSize(ps: seq<string>, sep: char)
    requires ps != [] && sep as int < 0x80
    ensures Size(Join(ps, sep)) + 1 == Total(ps)
  {
    hide Size;
    if |ps| > 1 {
      JoinSize(ps[1..], sep);
      var rest := Join(ps[1..], sep);
      EncodeAppend(ps[0] + [sep], rest);
      EncodeAppend(ps[0], [sep]);
      SizeOfAscii(sep);
    } else {
      assert Total(ps[1..]) == 0;
    }
  }

  lemma SizeOfAscii(c: char)
    requires c as int < 0x80
    ensures Size([c]) == 1
  {
    assert Encode([c][1..]) == [];
  }

  // ---------- Trimmed, non-empty pieces ----------

  /** `.map(trim).filter(|s| !s.is_empty())`. */
  function Clean(d: Dialect, ps: seq<string>): seq<string> {
    if ps == [] then []
    else
      var t := Trim(d, ps[0]);
      (if t == "" then [] else [t]) + Clean(d, ps[1..])
  }

  predicate NonEmptyTrimmed(d: Dialect, ps: seq<string>) {
    forall k :: 0 <= k < |ps| ==> ps[k] != "" && Trimmed(d, ps[k])
  }

  lemma {:induction false} CleanPieces(d: Dialect, ps: seq<string>)
    ensures NonEmptyTrimmed(d, Clean(d, ps))
    ensures Total(Clean(d, ps)) <= Total(ps)
  {
    hide Trim, Trimmed, Size;
    if ps != [] {
      var _, _ := TrimSlice(d, ps[0]);
      TrimSize(d, ps[0]);
      CleanPieces(d, ps[1..]);
      TotalAppend(if Trim(d, ps[0]) == "" then [] else [Trim(d, ps[0])], Clean(d, ps[1..]));
    }
  }

  lemma {:induction false} CleanFixed(d: Dialect, ps: seq<string>)
    requires NonEmptyTrimmed(d, ps)
    ensures Clean(d, ps) == ps
  {
    hide Trim, Trimmed;
    if ps != [] {
      TrimFixed(d, ps[0]);
      CleanFixed(d, ps[1..]);
    }
  }

  lemma {:induction false} CleanAppend(d: Dialect, a: seq<string>, b: seq<string>)
    ensures Clean(d, a + b) == Clean(d, a) + Clean(d, b)
  {
    hide Trim;
    if a == [] {
      assert a + b == b;
    } else {
      assert (a + b)[1..] == a[1..] + b;
      CleanAppend(d, a[1..], b);
    }
  }

  /** Every cleaned piece is a slice of one of the pieces. */
  ghost predicate SliceOf(t: string, s: string) {
    exists i, j :: 0 <= i <= j <= |s| && t == s[i..j]
  }

  ghost predicate SlicesOf(ts: seq<string>, ps: seq<string>) {
    forall k :: 0 <= k < |ts| ==> exists m :: 0 <= m < |ps| && SliceOf(ts[k], ps[m])
  }

  lemma {:induction false} CleanSlices(d: Dialect, ps: seq<string>)
    ensures SlicesOf(Clean(d, ps), ps)
  {
    hide Trim, SliceOf;
    if ps != [] {
      CleanSlices(d, ps[1..]);
      var t, rest := Trim(d, ps[0]), Clean(d, ps[1..]);
      assert SliceOf(t, ps[0]) by {
        var i, j := TrimSlice(d, ps[0]);
        SliceIntro(ps[0], i, j);
      }
      var first: seq<string> := if t == "" then [] else [t];
      forall k | 0 <= k < |Clean(d, ps)|
        ensures exists m :: 0 <= m < |ps| && SliceOf(Clean(d, ps)[k], ps[m])
      {
        if k < |first| {
          assert SliceOf(Clean(d, ps)[k], ps[0]);
        } else {
          var m :| 0 <= m < |ps[1..]| && SliceOf(rest[k - |first|], ps[1..][m]);
          assert ps[1..][m] == ps[m + 1];
        }
      }
    }
  }

  lemma SliceIntro(s: string, i: nat, j: nat)
    requires i <= j <= |s|
    ensures SliceOf(s[i..j], s)
  {
  }

  lemma {:induction false} CleanAgrees(ps: seq<string>)
    requires forall k :: 0 <= k < |ps| ==> Plain(ps[k])
    ensures Clean(Rust, ps) == Clean(Lean, ps)
  {
    hide Trim, Plain;
    if ps != [] {
      TrimAgrees(ps[0]);
      CleanAgrees(ps[1..]);
    }
  }

  // ---------- Lines ----------

  function StripReturn(line: string): string {
    if line != "" && line[|line| - 1] == '\r' then line[..|line| - 1] else line
  }

  /** `\n`-terminated lines lose a `\r` before the `\n`; what follows the last `\n` is a line only when non-empty. */
  function StripReturns(ps: seq<string>): seq<string>
    requires ps != []
  {
    if |ps| == 1 then (if ps[0] == "" then [] else ps) else [StripReturn(ps[0])] + StripReturns(ps[1..])
  }

  /** Rust's `str::lines` and Lean's `splitOn "\n"`. */
  function Lines(d: Dialect, text: string): seq<string> {
    var ps := Split(text, '\n');
    match d
    case Lean => ps
    case Rust => StripReturns(ps)
  }

  /** After trimming and dropping empty lines the difference between the two is gone. */
  lemma CleanLines(d: Dialect, text: string)
    ensures Clean(d, Lines(d, text)) == Clean(d, Split(text, '\n'))
  {
    hide Clean, StripReturns;
    if d == Rust {
      StripReturnsCleaned(Split(text, '\n'));
    }
  }

  lemma {:induction false} StripReturnsCleaned(ps: seq<string>)
    requires ps != []
    ensures Clean(Rust, StripReturns(ps)) == Clean(Rust, ps)
  {
    hide Trim, StripReturn;
    if |ps| == 1 {
      assert Trim(Rust, "") == "" by {
        TrimFixed(Rust, "");
      }
    } else {
      StripReturnTrimmed(ps[0]);
      StripReturnsCleaned(ps[1..]);
    }
  }

  lemma StripReturnTrimmed(line: string)
    ensures Trim(Rust, StripReturn(line)) == Trim(Rust, line)
  {
    hide TrimStart, TrimEnd;
    if line != "" && line[|line| - 1] == '\r' {
      TrimStartSnoc(Rust, line[..|line| - 1], '\r');
      assert line == line[..|line| - 1] + ['\r'];
    }
  }

  lemma {:induction false} TrimStartSnoc(d: Dialect, s: string, c: char)
    requires IsSpace(d, c)
    ensures TrimEnd(d, TrimStart(d, s + [c])) == TrimEnd(d, TrimStart(d, s))
  {
    hide IsSpace;
    var t := s + [c];
    if s == "" {
      assert TrimStart(d, t) == TrimStart(d, t[1..]) == "";
    } else if IsSpace(d, s[0]) {
      assert t[1..] == s[1..] + [c];
      TrimStartSnoc(d, s[1..], c);
    } else {
      assert t[..|t| - 1] == s;
    }
  }

  // ---------- Text before a key ----------

  /** `s` up to the first occurrence of `key`: what `(line.splitOn key).getD 1 ""` returns for `line = key ++ s`. */
  function Before(s: string, key: string): string
    requires key != ""
  {
    if |s| < |key| then s
    else if s[..|key|] == key then ""
    else [s[0]] + Before(s[1..], key)
  }

  /** `key` occurs in `s` at position `i`. */
  predicate At<T(==)>(s: seq<T>, i: nat, key: seq<T>) {
    i + |key| <= |s| && s[i..i + |key|] == key
  }

  ghost predicate NoOccurrence(s: string, key: string) {
    forall i: nat :: !At(s, i, key)
  }

  lemma SliceOfSlice<T>(s: seq<T>, i: nat, j: nat, a: nat, b: nat)
    requires i <= j <= |s| && a <= b <= j - i
    ensures s[i..j][a..b] == s[i + a..i + b]
  {
    var t := s[i..j];
    forall k | 0 <= k < b - a
      ensures t[a..b][k] == s[i + a..i + b][k]
    {
      assert t[a + k] == s[i + (a + k)];
    }
  }

  /** Position `m` of a text is position `m - i` of its slice. */
  lemma AtSlice(s: string, i: nat, j: nat, t: string, m: nat, key: string)
    requires i <= j <= |s| && t == s[i..j] && i <= m
    ensures At(t, m - i, key) <==> m + |key| <= j && At(s, m, key)
  {
    if m + |key| <= j {
      SliceOfSlice(s, i, j, m - i, m - i + |key|);
    }
  }

  lemma {:induction false} BeforeSlice(s: string, key: string) returns (j: nat)
    requires key != ""
    ensures j <= |s| && Before(s, key) == s[..j]
    ensures NoOccurrence(s[..j], key)
    ensures j < |s| ==> !NoOccurrence(s, key)
  {
    if |s| < |key| {
      j := |s|;
    } else if s[..|key|] == key {
      j := 0;
      assert s[0..|key|] == s[..|key|];
      assert At(s, 0, key);
    } else {
      var rest := s[1..];
      var k := BeforeSlice(rest, key);
      j := k + 1;
      assert Before(s, key) == s[..j] by {
        assert s[..j] == [s[0]] + rest[..k];
      }
      BeforeStep(s, key, k);
    }
  }

  lemma BeforeStep(s: string, key: string, k: nat)
    requires key != "" && |key| <= |s| && s[..|key|] != key && k <= |s| - 1
    requires NoOccurrence(s[1..][..k], key)
    ensures NoOccurrence(s[..k + 1], key)
    ensures !NoOccurrence(s[1..], key) ==> !NoOccurrence(s, key)
  {
    var u, rest := s[..k + 1], s[1..];
    assert u[1..|u|] == rest[..k] && s[1..|s|] == rest;
    forall i: nat
      ensures !At(u, i, key)
    {
      if i == 0 {
        AtFirst(s, k + 1, key);
      } else {
        AtSlice(u, 1, |u|, rest[..k], i, key);
        assert !At(rest[..k], i - 1, key);
      }
    }
    if !NoOccurrence(rest, key) {
      var i: nat :| At(rest, i, key);
      AtSlice(s, 1, |s|, rest, i + 1, key);
    }
  }

  lemma AtFirst(s: string, j: nat, key: string)
    requires j <= |s| && |key| <= |s| && s[..|key|] != key
    ensures !At(s[..j], 0, key)
  {
    if |key| <= j {
      assert s[..j][0..|key|] == s[..|key|];
    }
  }

  lemma BeforeAll(s: string, key: string)
    requires key != ""
    ensures Before(s, key) == s <==> NoOccurrence(s, key)
  {
    hide Before, NoOccurrence;
    var j := BeforeSlice(s, key);
    assert s[..|s|] == s;
  }

  lemma OccurrenceInSlice(t: string, s: string, key: string)
    requires SliceOf(t, s) && NoOccurrence(s, key)
    ensures NoOccurrence(t, key)
  {
    var i, j :| 0 <= i <= j <= |s| && t == s[i..j];
    forall k: nat
      ensures !At(t, k, key)
    {
      AtSlice(s, i, j, t, i + k, key);
    }
  }

  /** A key without the separator cannot straddle a separator. */
  lemma NoOccurrenceAcross(s: string, sep: char, t: string, key: string)
    requires key != "" && Free(key, sep)
    requires NoOccurrence(s, key) && NoOccurrence(t, key)
    ensures NoOccurrence(s + [sep] + t, key)
  {
    var u := s + [sep] + t;
    forall i: nat
      ensures !At(u, i, key)
    {
      var n := |s|;
      assert u[0..n] == s && u[n + 1..|u|] == t && u[n] == sep;
      if i + |key| <= n {
        AtSlice(u, 0, n, s, i, key);
      } else if i > n {
        AtSlice(u, n + 1, |u|, t, i, key);
      } else {
        AtMeans(u, i, key, n - i);
      }
    }
  }

  lemma AtMeans(s: string, i: nat, key: string, k: nat)
    requires k < |key|
    ensures At(s, i, key) ==> i + k < |s| && key[k] == s[i + k]
  {
  }

  lemma {:induction false} NoOccurrenceInJoin(ps: seq<string>, sep: char, key: string)
    requires key != "" && Free(key, sep)
    requires forall k :: 0 <= k < |ps| ==> NoOccurrence(ps[k], key)
    ensures NoOccurrence(Join(ps, sep), key)
  {
    hide NoOccurrence;
    if |ps| > 1 {
      NoOccurrenceInJoin(ps[1..], sep, key);
      NoOccurrenceAcross(ps[0], sep, Join(ps[1..], sep), key);
    } else if ps == [] {
      NoOccurrenceInEmpty(key);
    }
  }

  lemma NoOccurrenceInEmpty(key: string)
    requires key != ""
    ensures NoOccurrence("", key)
  {
  }

  // ---------- Occurrence in the bytes ----------

  ghost predicate Occurs(b: seq<byte>, key: seq<byte>) {
    exists i: nat :: At(b, i, key)
  }

  /** Lead bytes are not continuation bytes, and no byte is 0xFF. */
  lemma CharBytes(c: char, i: nat)
    requires i < |EncodeChar(c)|
    ensures EncodeChar(c)[i] < 0xF8
    ensures 0x80 <= EncodeChar(c)[i] < 0xC0 <==> i > 0
  {
  }

  /** A text whose bytes begin another text's bytes begins that text. */
  lemma {:induction false} EncodePrefix(s: string, t: string, tail: seq<byte>)
    requires Encode(t) == Encode(s) + tail
    ensures s <= t
  {
    hide EncodeChar;
    if s != "" {
      var a, b := Encode(s[1..]), Encode(t[1..]);
      assert t != "";
      assert EncodeChar(s[0]) + a + tail == EncodeChar(s[0]) + (a + tail);
      EncodeCharPrefix(s[0], t[0], a + tail, b);
      EncodePrefix(s[1..], t[1..], tail);
      assert s == [s[0]] + s[1..] && t == [t[0]] + t[1..];
    }
  }

  lemma ShiftAt<T>(e: seq<T>, rest: seq<T>, i: nat, key: seq<T>)
    requires |e| <= i
    ensures At(e + rest, i, key) <==> At(rest, i - |e|, key)
  {
    if i + |key| <= |e + rest| {
      assert (e + rest)[i..i + |key|] == rest[i - |e|..i - |e| + |key|];
    }
  }

  lemma PrefixAt<T>(s: seq<T>, key: seq<T>)
    ensures At(s, 0, key) <==> key <= s
  {
    if |key| <= |s| {
      assert s[0..|key|] == s[..|key|];
    }
  }

  /** UTF-8 synchronises itself: bytes of a text found among the bytes of another are that text found in the other. */
  lemma {:induction false} OccurrenceOfBytes(t: string, s: string, i: nat) returns (j: nat)
    requires s != "" && At(Encode(t), i, Encode(s))
    ensures At(t, j, s)
  {
    hide EncodeChar, At;
    var b, key := Encode(t), Encode(s);
    AtInside(b, i, key);
    assert t != "" && |key| > 0;
    var e, rest := EncodeChar(t[0]), Encode(t[1..]);
    if i == 0 {
      PrefixAt(b, key);
      EncodePrefix(s, t, b[|key|..]);
      PrefixAt(t, s);
      j := 0;
    } else if i < |e| {
      CharBytes(t[0], i);
      CharBytes(s[0], 0);
      AtElement(b, i, key, 0);
      assert false;
    } else {
      ShiftAt(e, rest, i, key);
      var k := OccurrenceOfBytes(t[1..], s, i - |e|);
      assert t == [t[0]] + t[1..];
      ShiftAt([t[0]], t[1..], k + 1, s);
      j := k + 1;
    }
  }

  lemma AtInside<T>(s: seq<T>, i: nat, key: seq<T>)
    ensures At(s, i, key) ==> i + |key| <= |s|
  {
  }

  lemma AtElement<T>(s: seq<T>, i: nat, key: seq<T>, k: nat)
    requires k < |key| && At(s, i, key)
    ensures i + k < |s| && key[k] == s[i + k]
  {
    assert s[i..i + |key|][k] == s[i + k];
  }

  /** The bytes of a text occur among those of another exactly when the text occurs in the other. */
  lemma OccursAsText(t: string, s: string)
    requires s != ""
    ensures Occurs(Encode(t), Encode(s)) <==> !NoOccurrence(t, s)
  {
    hide Encode;
    if Occurs(Encode(t), Encode(s)) {
      var i: nat :| At(Encode(t), i, Encode(s));
      var j := OccurrenceOfBytes(t, s, i);
    }
    if !NoOccurrence(t, s) {
      var j: nat :| At(t, j, s);
      var a, c := t[..j], t[j + |s|..];
      assert t == a + s + c;
      EncodeAppend(a + s, c);
      EncodeAppend(a, s);
      var x, y := Encode(a), Encode(s);
      var b := x + y + Encode(c);
      assert b[|x|..|x| + |y|] == y;
      assert At(b, |x|, y);
    }
  }

  lemma {:induction false} EncodedByte(s: string, i: nat)
    requires i < |Encode(s)|
    ensures Encode(s)[i] < 0xF8
  {
    hide EncodeChar;
    var e := EncodeChar(s[0]);
    if i < |e| {
      CharBytes(s[0], i);
    } else {
      EncodedByte(s[1..], i - |e|);
    }
  }

  /** Text followed by the byte 0xFF is not UTF-8. */
  lemma NotUtf8(s: string)
    ensures FromUtf8(Encode(s) + [0xFF]) == None
  {
    hide Encode, FromUtf8;
    var b := Encode(s) + [0xFF];
    if FromUtf8(b).Some? {
      var t := FromUtf8(b).value;
      FromUtf8Text(b);
      EncodedByte(t, |b| - 1);
      assert false;
    }
  }

  // ---------- Literal values ----------

  /** One character of each length. */
  lemma Utf8Example()
    ensures EncodeChar('A') == [0x41] && EncodeChar('\U{E9}') == [0xC3, 0xA9]
    ensures EncodeChar('\U{20AC}') == [0xE2, 0x82, 0xAC] && EncodeChar('\U{1F600}') == [0xF0, 0x9F, 0x98, 0x80]
  {
  }

  /** What is not UTF-8: a lone continuation byte, an overlong form, a surrogate, a cut sequence. */
  lemma NotUtf8Example()
    ensures FromUtf8([0x80]) == None && FromUtf8([0xC0, 0x80]) == None
    ensures FromUtf8([0xED, 0xA0, 0x80]) == None && FromUtf8([0xE2, 0x82]) == None
  {
    assert LeadLength(0x80) == 2 && LeadLength(0xC0) == 2 && LeadLength(0xED) == 3 && LeadLength(0xE2) == 3;
    assert [0xC0, 0x80][..2] == [0xC0, 0x80] && [0xED, 0xA0, 0x80][..3] == [0xED, 0xA0, 0x80];
    assert DecodeChar([0xC0, 0x80]) == 0 && EncodeChar(0 as char) == [0];
    assert DecodeChar([0xED, 0xA0, 0x80]) == 0xD800;
  }

  /** The 25 characters of Unicode's White_Space. */
  const UNICODE_SPACES: string :=
    "\U{9}\U{A}\U{B}\U{C}\U{D}\U{20}\U{85}\U{A0}\U{1680}\U{2000}\U{2001}\U{2002}\U{2003}\U{2004}\U{2005}" +
    "\U{2006}\U{2007}\U{2008}\U{2009}\U{200A}\U{2028}\U{2029}\U{202F}\U{205F}\U{3000}"

  lemma Spaces(c: char)
    ensures IsSpace(Lean, c) <==> c in " \t\r\n"
    ensures IsSpace(Rust, c) <==> c in UNICODE_SPACES
  {
  }

  /** Rust drops one return before a line break and the empty piece after the last one; Lean keeps both. */
  lemma LinesExample()
    ensures Lines(Rust, "a\r\nb\r\n") == ["a", "b"] && Lines(Lean, "a\r\nb\r\n") == ["a\r", "b\r", ""]
  {
    hide Split;
    assert "a\r\nb\r\n" == "a\r" + ['\n'] + ("b\r" + ['\n'] + "");
    SplitAtSeparator("a\r", '\n', "b\r" + ['\n'] + "");
    SplitAtSeparator("b\r", '\n', "");
    SplitFree("", '\n');
    var ps := ["a\r", "b\r", ""];
    assert ps[1..] == ["b\r", ""] && ps[1..][1..] == [""];
    assert "a\r"[..1] == "a" && "b\r"[..1] == "b";
    assert StripReturn("a\r") == "a" && StripReturn("b\r") == "b";
    assert StripReturns([""]) == [];
    assert StripReturns(["b\r", ""]) == ["b"] + [];
    assert StripReturns(ps) == ["a"] + ["b"];
  }
}
