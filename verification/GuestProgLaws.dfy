// What printing and parsing do to each other.

module GuestProgLaws {
  import opened Bytes
  import opened Wrappers
  import opened Text
  import opened Decimal
  import opened GuestProg

  // ---------- Which programs survive a print and a parse ----------

  ghost predicate GoodEntry(d: Dialect, f: Field, e: string) {
    e != "" && Trimmed(d, e) && Free(e, ',') && Free(e, '\n') && (d.Lean? ==> NoOccurrence(e, Key(f)))
  }

  ghost predicate GoodEntries(d: Dialect, f: Field, es: seq<string>) {
    forall k :: 0 <= k < |es| ==> GoodEntry(d, f, es[k])
  }

  ghost predicate GoodName(d: Dialect, n: string) {
    Free(n, '\n') && (d.Lean? ==> NoOccurrence(n, Key(NameField)))
  }

  predicate NoTrailingSpace(d: Dialect, n: string) {
    n == "" || !IsSpace(d, n[|n| - 1])
  }

  /** What every accepted program satisfies. */
  ghost predicate WellShaped(d: Dialect, p: Program) {
    && GoodEntries(d, AllowField, p.allow)
    && GoodEntries(d, DenyField, p.deny)
    && GoodName(d, p.name)
    && (d.Rust? && p.maxInput.Some? ==> p.maxInput.value <= USIZE_MAX)
  }

  ghost predicate Canonical(d: Dialect, p: Program) {
    WellShaped(d, p) && p.allow != [] && NoTrailingSpace(d, p.name)
  }

  // ---------- Printing then parsing, field by field ----------

  lemma {:induction false} JoinNonEmpty(es: seq<string>)
    requires es != [] && forall k :: 0 <= k < |es| ==> es[k] != ""
    ensures
      var s := Join(es, ',');
      s != "" && s[0] == es[0][0] && s[|s| - 1] == es[|es| - 1][|es[|es| - 1]| - 1]
  {
    if |es| > 1 {
      JoinNonEmpty(es[1..]);
    }
  }

  lemma {:induction false} JoinFree(es: seq<string>, c: char)
    requires c != ',' && forall k :: 0 <= k < |es| ==> Free(es[k], c)
    ensures Free(Join(es, ','), c)
  {
    hide Free;
    if |es| > 1 {
      JoinFree(es[1..], c);
      FreeAppend3(es[0], ",", Join(es[1..], ','), c);
    } else if es == [] {
      assert Free("", c) by { FreeEmpty(c); }
    }
  }

  lemma FreeEmpty(c: char)
    ensures Free("", c)
  {
  }

  lemma FreeAppend3(a: string, b: string, e: string, c: char)
    requires Free(a, c) && Free(e, c) && c !in b
    ensures Free(a + b + e, c)
  {
  }

  /** A list line is its own trimmed form, and its entries are read back. */
  lemma ListLine(d: Dialect, f: Field, es: seq<string>)
    requires es != [] && GoodEntries(d, f, es)
    ensures
      var line := Key(f) + Join(es, ',');
      Trimmed(d, line) && Free(line, '\n') && Entries(d, Value(d, f, line)) == es
  {
    hide Key, Split, Clean, IsSpace, NoOccurrence, Before;
    var joined := Join(es, ',');
    var line := Key(f) + joined;
    KeyFacts(d, f);
    JoinNonEmpty(es);
    JoinFree(es, '\n');
    assert line[0] == Key(f)[0] && line[|line| - 1] == joined[|joined| - 1];
    assert Trimmed(d, es[|es| - 1]);
    assert line[|Key(f)|..] == joined;
    if d == Lean {
      NoOccurrenceInJoin(es, ',', Key(f));
      BeforeAll(joined, Key(f));
    }
    SplitOfJoin(es, ',');
    CleanFixed(d, es);
  }

  /** A value that cannot contain the key is read whole in both dialects. */
  lemma PlainValue(d: Dialect, f: Field, v: string)
    requires NoOccurrence(v, Key(f))
    ensures Value(d, f, Key(f) + v) == v
  {
    hide Key, Before, NoOccurrence;
    KeyFacts(d, f);
    assert (Key(f) + v)[|Key(f)|..] == v;
    BeforeAll(v, Key(f));
  }

  lemma LineOf(d: Dialect, f: Field, v: string)
    requires v != "" && Trimmed(d, v) && Free(v, '\n')
    ensures Trimmed(d, Key(f) + v) && Free(Key(f) + v, '\n')
  {
    hide Key, IsSpace;
    KeyFacts(d, f);
    var line := Key(f) + v;
    assert line[0] == Key(f)[0] && line[|line| - 1] == v[|v| - 1];
  }

  lemma TrueValue(d: Dialect)
    ensures Trimmed(d, "true") && Free("true", '\n') && NoOccurrence("true", Key(InteractionField))
    ensures ParseBool(d, "true") == Some(true)
  {
    TrimFixed(d, "true");
  }

  lemma NumberValue(d: Dialect, n: nat)
    ensures NatToDec(n) != "" && Trimmed(d, NatToDec(n)) && Free(NatToDec(n), '\n')
    ensures NoOccurrence(NatToDec(n), Key(MaxInputField))
    ensures d.Lean? || n <= USIZE_MAX ==> ParseNumber(d, NatToDec(n)) == Some(n)
  {
    hide NatToDec, Trim;
    var s := NatToDec(n);
    DigitsTrimmed(d, s);
    TrimFixed(d, s);
    DecRoundTrip(n);
    UsizeRoundTrip(n);
    DigitsHaveNoKey(s);
  }

  lemma DigitsHaveNoKey(s: string)
    requires AllDigits(s)
    ensures NoOccurrence(s, Key(MaxInputField))
  {
    var key := Key(MaxInputField);
    assert !IsDigit(key[0]);
    forall i: nat
      ensures !At(s, i, key)
    {
      AtMeans(s, i, key, 0);
    }
  }

  // ---------- The printed lines as a parser sees them ----------

  predicate GoodLines(d: Dialect, ls: seq<string>) {
    NonEmptyTrimmed(d, ls) && forall k :: 0 <= k < |ls| ==> Free(ls[k], '\n')
  }

  lemma GoodLine(d: Dialect, f: Field, v: string)
    requires Trimmed(d, Key(f) + v) && Free(Key(f) + v, '\n')
    ensures GoodLines(d, [Key(f) + v])
  {
    hide Key, IsSpace;
    KeyFacts(d, f);
  }

  /** The lines printed after the name. */
  function LaterLines(p: Program): seq<string> {
    [AllowLine(p)] + DenyLines(p) + InteractionLines(p) + MaxInputLines(p)
  }

  lemma LaterLinesGood(d: Dialect, p: Program)
    requires WellShaped(d, p) && p.allow != []
    ensures GoodLines(d, LaterLines(p))
  {
    hide Key, Trimmed, Free, Join, NatToDec, IsSpace, NoOccurrence, NonEmptyTrimmed, ParseNumber, ParseBool, Value, Entries;
    assert GoodLines(d, [AllowLine(p)]) by {
      ListLine(d, AllowField, p.allow);
      GoodLine(d, AllowField, Join(p.allow, ','));
    }
    assert GoodLines(d, DenyLines(p)) by {
      if p.deny != [] {
        ListLine(d, DenyField, p.deny);
        GoodLine(d, DenyField, Join(p.deny, ','));
      } else {
        NoLinesGood(d);
      }
    }
    assert GoodLines(d, InteractionLines(p)) by {
      TrueValue(d);
      LineOf(d, InteractionField, "true");
      GoodLine(d, InteractionField, "true");
      NoLinesGood(d);
    }
    assert GoodLines(d, MaxInputLines(p)) by {
      if p.maxInput.Some? {
        NumberValue(d, p.maxInput.value);
        LineOf(d, MaxInputField, NatToDec(p.maxInput.value));
        GoodLine(d, MaxInputField, NatToDec(p.maxInput.value));
      } else {
        NoLinesGood(d);
      }
    }
    hide GoodLines, AllowLine, DenyLines, InteractionLines, MaxInputLines;
    GoodLinesAppend(d, [AllowLine(p)], DenyLines(p));
    GoodLinesAppend(d, [AllowLine(p)] + DenyLines(p), InteractionLines(p));
    GoodLinesAppend(d, [AllowLine(p)] + DenyLines(p) + InteractionLines(p), MaxInputLines(p));
  }

  lemma NoLinesGood(d: Dialect)
    ensures GoodLines(d, [])
  {
  }

  lemma GoodLinesAppend(d: Dialect, a: seq<string>, b: seq<string>)
    requires GoodLines(d, a) && GoodLines(d, b)
    ensures GoodLines(d, a + b)
  {
    hide Trimmed, Free;
  }

  /** Splitting the printed text gives the printed lines and an empty last one. */
  lemma SplitOfPrint(d: Dialect, p: Program)
    requires WellShaped(d, p) && p.allow != []
    ensures Split(Serialize(p), '\n') == [WireVersion(p)] + FieldLines(p) + [""]
  {
    hide Key, Trimmed, Free, NatToDec, IsSpace, NoOccurrence, V1, V2, GoodEntries, Join, Split;
    var ls := [WireVersion(p)] + FieldLines(p);
    assert FieldLines(p) == NameLines(p) + LaterLines(p);
    LaterLinesGood(d, p);
    VersionFacts(d);
    KeyFacts(d, NameField);
    forall k | 0 <= k < |NameLines(p)|
      ensures Free(NameLines(p)[k], '\n')
    {
      FreeAppend3(Key(NameField), "", p.name, '\n');
      assert Key(NameField) + "" == Key(NameField);
    }
    hide NameLines, LaterLines, FieldLines;
    FreeEmpty('\n');
    assert forall k :: 0 <= k < |ls + [""]| ==> Free((ls + [""])[k], '\n');
    SplitOfJoin(ls + [""], '\n');
    JoinTrailing(ls);
  }

  lemma {:induction false} JoinTrailing(ls: seq<string>)
    requires ls != []
    ensures Join(ls + [""], '\n') == Join(ls, '\n') + "\n"
  {
    if |ls| == 1 {
      assert (ls + [""])[1..] == [""];
    } else {
      assert (ls + [""])[1..] == ls[1..] + [""];
      JoinTrailing(ls[1..]);
    }
  }

  lemma {:induction false} TrimEndAfter(d: Dialect, k: string, n: string)
    requires k != "" && !IsSpace(d, k[0]) && !IsSpace(d, k[|k| - 1])
    ensures Trim(d, k + n) == k + TrimEnd(d, n)
  {
    hide IsSpace;
    var s := k + n;
    assert TrimStart(d, s) == s;
    if n == "" {
      assert s == k;
    } else if IsSpace(d, n[|n| - 1]) {
      assert s[..|s| - 1] == k + n[..|n| - 1];
      TrimEndAfter(d, k, n[..|n| - 1]);
      assert TrimStart(d, k + n[..|n| - 1]) == k + n[..|n| - 1];
    }
  }

  /** Only the name line can change when it is trimmed. */
  lemma CleanedPrint(d: Dialect, p: Program)
    requires WellShaped(d, p) && p.allow != []
    ensures Clean(d, Lines(d, Serialize(p))) ==
      [WireVersion(p)] + (if p.name == "" then [] else [Key(NameField) + TrimEnd(d, p.name)]) + LaterLines(p)
  {
    hide Key, Trimmed, Free, IsSpace, NoOccurrence, V1, V2, Join, Split, Clean, WireVersion, AllowLine, DenyLines,
      InteractionLines, MaxInputLines, TrimEnd, Trim, LaterLines;
    var name := if p.name == "" then [] else [Key(NameField) + TrimEnd(d, p.name)];
    CleanLines(d, Serialize(p));
    SplitOfPrint(d, p);
    assert [WireVersion(p)] + FieldLines(p) + [""] == [WireVersion(p)] + NameLines(p) + LaterLines(p) + [""] by {
      assert FieldLines(p) == NameLines(p) + LaterLines(p) by { LaterLinesOf(p); }
    }
    CleanAppend(d, [WireVersion(p)] + NameLines(p) + LaterLines(p), [""]);
    CleanAppend(d, [WireVersion(p)] + NameLines(p), LaterLines(p));
    CleanAppend(d, [WireVersion(p)], NameLines(p));
    CleanEmptyLine(d);
    CleanVersion(d, p);
    LaterLinesGood(d, p);
    CleanFixed(d, LaterLines(p));
    assert Clean(d, NameLines(p)) == name by {
      CleanNameLines(d, p);
    }
  }

  lemma LaterLinesOf(p: Program)
    ensures FieldLines(p) == NameLines(p) + LaterLines(p)
  {
    hide NameLines, AllowLine, DenyLines, InteractionLines, MaxInputLines;
  }

  lemma CleanEmptyLine(d: Dialect)
    ensures Clean(d, [""]) == []
  {
    TrimFixed(d, "");
    assert Clean(d, [""][1..]) == [];
  }

  lemma CleanVersion(d: Dialect, p: Program)
    ensures Clean(d, [WireVersion(p)]) == [WireVersion(p)]
  {
    hide V1, V2, Trimmed;
    VersionFacts(d);
    CleanFixed(d, [WireVersion(p)]);
  }

  lemma CleanNameLines(d: Dialect, p: Program)
    ensures Clean(d, NameLines(p)) == if p.name == "" then [] else [Key(NameField) + TrimEnd(d, p.name)]
  {
    hide Key, Trim, IsSpace, TrimEnd;
    if p.name != "" {
      KeyFacts(d, NameField);
      TrimEndAfter(d, Key(NameField), p.name);
      assert Clean(d, NameLines(p)[1..]) == [];
    }
  }

  lemma NameValue(d: Dialect, n: string)
    requires GoodName(d, n)
    ensures Value(d, NameField, Key(NameField) + TrimEnd(d, n)) == TrimEnd(d, n)
  {
    hide Key, Before, NoOccurrence, TrimEnd;
    KeyFacts(d, NameField);
    var j := TrimEndSlice(d, n);
    var t := TrimEnd(d, n);
    assert (Key(NameField) + t)[|Key(NameField)|..] == t;
    if d == Lean {
      SliceIntro(n, 0, j);
      OccurrenceInSlice(t, n, Key(NameField));
      BeforeAll(t, Key(NameField));
    }
  }

  // ---------- Reading the printed lines ----------

  lemma ApplyOne(d: Dialect, q: Program, line: string)
    ensures ApplyAll(d, q, [line]) == Apply(d, q, line)
  {
    hide Apply;
    if Apply(d, q, line).Ok? {
      assert [line][1..] == [];
    }
  }

  lemma ReadNameLine(d: Dialect, q: Program, n: string)
    requires GoodName(d, n)
    ensures ApplyAll(d, q, [Key(NameField) + TrimEnd(d, n)]) == Ok(q.(name := TrimEnd(d, n)))
  {
    hide Key, FieldOf, Value, TrimEnd, GoodName;
    ApplyOne(d, q, Key(NameField) + TrimEnd(d, n));
    FieldOfKey(NameField, TrimEnd(d, n));
    NameValue(d, n);
  }

  lemma ReadAllowLine(d: Dialect, q: Program, p: Program)
    requires GoodEntries(d, AllowField, p.allow) && p.allow != []
    ensures ApplyAll(d, q, [AllowLine(p)]) == Ok(q.(allow := p.allow))
  {
    hide Key, FieldOf, Value, Entries, Join, GoodEntries;
    ApplyOne(d, q, AllowLine(p));
    FieldOfKey(AllowField, Join(p.allow, ','));
    ListLine(d, AllowField, p.allow);
  }

  lemma ReadDenyLines(d: Dialect, q: Program, p: Program)
    requires GoodEntries(d, DenyField, p.deny) && q.deny == []
    ensures ApplyAll(d, q, DenyLines(p)) == Ok(q.(deny := p.deny))
  {
    hide Key, FieldOf, Value, Entries, Join, GoodEntries;
    if p.deny != [] {
      ApplyOne(d, q, Key(DenyField) + Join(p.deny, ','));
      FieldOfKey(DenyField, Join(p.deny, ','));
      ListLine(d, DenyField, p.deny);
    }
  }

  lemma ReadInteractionLines(d: Dialect, q: Program, p: Program)
    requires !q.requireInteraction
    ensures ApplyAll(d, q, InteractionLines(p)) == Ok(q.(requireInteraction := p.requireInteraction))
  {
    hide Key, FieldOf, Value, ParseBool;
    if p.requireInteraction {
      ApplyOne(d, q, Key(InteractionField) + "true");
      FieldOfKey(InteractionField, "true");
      TrueValue(d);
      PlainValue(d, InteractionField, "true");
    }
  }

  lemma ReadMaxInputLines(d: Dialect, q: Program, p: Program)
    requires WellShaped(d, p) && q.maxInput == None
    ensures ApplyAll(d, q, MaxInputLines(p)) == Ok(q.(maxInput := p.maxInput))
  {
    hide Key, FieldOf, Value, ParseNumber, NatToDec, GoodEntries, GoodName;
    if p.maxInput.Some? {
      var s := NatToDec(p.maxInput.value);
      ApplyOne(d, q, Key(MaxInputField) + s);
      FieldOfKey(MaxInputField, s);
      NumberValue(d, p.maxInput.value);
      PlainValue(d, MaxInputField, s);
    }
  }

  lemma ReadLaterLines(d: Dialect, q: Program, p: Program)
    requires WellShaped(d, p) && p.allow != []
    requires q.deny == [] && !q.requireInteraction && q.maxInput == None
    ensures ApplyAll(d, q, LaterLines(p)) == Ok(p.(name := q.name))
  {
    hide AllowLine, DenyLines, InteractionLines, MaxInputLines, ApplyAll, GoodEntries, GoodName;
    var q1 := q.(allow := p.allow);
    var q2 := q1.(deny := p.deny);
    var q3 := q2.(requireInteraction := p.requireInteraction);
    ReadAllowLine(d, q, p);
    ReadDenyLines(d, q1, p);
    ReadInteractionLines(d, q2, p);
    ReadMaxInputLines(d, q3, p);
    ApplyAllAppend(d, q, [AllowLine(p)], DenyLines(p));
    ApplyAllAppend(d, q, [AllowLine(p)] + DenyLines(p), InteractionLines(p));
    ApplyAllAppend(d, q, [AllowLine(p)] + DenyLines(p) + InteractionLines(p), MaxInputLines(p));
  }

  /** Parsing a printed program gives the program back, except that the end of its name is trimmed. */
  lemma PrintThenParse(d: Dialect, p: Program)
    requires WellShaped(d, p) && p.allow != []
    ensures ParseText(d, Serialize(p)) == Ok(p.(name := TrimEnd(d, p.name)))
  {
    hide Clean, Lines, Serialize, ApplyAll, LaterLines, TrimEnd, V1, V2, Key, GoodEntries, GoodName;
    var trimmed := TrimEnd(d, p.name);
    var name := if p.name == "" then [] else [Key(NameField) + trimmed];
    var lines := [WireVersion(p)] + name + LaterLines(p);
    var q := EMPTY.(name := trimmed);
    CleanedPrint(d, p);
    assert ApplyAll(d, EMPTY, name) == Ok(q) by {
      if p.name == "" {
        NothingRead(d, EMPTY);
        TrimEndOfEmpty(d);
      } else {
        ReadNameLine(d, EMPTY, p.name);
      }
    }
    ReadLaterLines(d, q, p);
    ApplyAllAppend(d, EMPTY, name, LaterLines(p));
    assert lines[1..] == name + LaterLines(p);
    VersionFacts(d);
  }

  lemma NothingRead(d: Dialect, q: Program)
    ensures ApplyAll(d, q, []) == Ok(q)
  {
  }

  lemma TrimEndOfEmpty(d: Dialect)
    ensures TrimEnd(d, "") == ""
  {
  }

  // ---------- What an accepted program looks like ----------

  lemma SliceFree(t: string, s: string, c: char)
    requires SliceOf(t, s) && Free(s, c)
    ensures Free(t, c)
  {
    var i, j :| 0 <= i <= j <= |s| && t == s[i..j];
  }

  lemma SliceTransitive(t: string, u: string, s: string)
    requires SliceOf(t, u) && SliceOf(u, s)
    ensures SliceOf(t, s)
  {
    var i, j :| 0 <= i <= j <= |u| && t == u[i..j];
    var k, l :| 0 <= k <= l <= |s| && u == s[k..l];
    SliceOfSlice(s, k, l, i, j);
    SliceIntro(s, k + i, k + j);
  }

  lemma {:induction false} FirstPiece(s: string, sep: char)
    ensures |Split(s, sep)[0]| <= |s| && Split(s, sep)[0] == s[..|Split(s, sep)[0]|]
  {
    if s != "" && s[0] != sep {
      var rest := Split(s[1..], sep);
      FirstPiece(s[1..], sep);
      var n := |rest[0]|;
      assert s[..n + 1] == [s[0]] + s[1..][..n];
    }
  }

  lemma {:induction false} SplitSlice(s: string, sep: char, k: nat)
    requires k < |Split(s, sep)|
    ensures SliceOf(Split(s, sep)[k], s)
  {
    hide SliceOf;
    if k == 0 {
      FirstPiece(s, sep);
      SliceIntro(s, 0, |Split(s, sep)[0]|);
    } else {
      var t := s[1..];
      assert Split(s, sep)[k] in Split(t, sep);
      var m :| 0 <= m < |Split(t, sep)| && Split(t, sep)[m] == Split(s, sep)[k];
      SplitSlice(t, sep, m);
      SliceIntro(s, 1, |s|);
      assert s[1..|s|] == t;
      SliceTransitive(Split(t, sep)[m], t, s);
    }
  }

  lemma SplitSlices(s: string, sep: char)
    ensures forall k :: 0 <= k < |Split(s, sep)| ==> SliceOf(Split(s, sep)[k], s)
  {
    hide Split, SliceOf;
    forall k | 0 <= k < |Split(s, sep)|
      ensures SliceOf(Split(s, sep)[k], s)
    {
      SplitSlice(s, sep, k);
    }
  }

  /** Entries of a value are cleaned slices of it. */
  lemma EntriesGood(d: Dialect, f: Field, v: string)
    requires Free(v, '\n') && (d.Lean? ==> NoOccurrence(v, Key(f)))
    ensures GoodEntries(d, f, Entries(d, v))
  {
    hide Key, Clean, Split, Trimmed, SliceOf, NoOccurrence, Free;
    var ps := Split(v, ',');
    var es := Entries(d, v);
    CleanPieces(d, ps);
    CleanSlices(d, ps);
    SplitPieces(v, ',');
    SplitSlices(v, ',');
    forall k | 0 <= k < |es|
      ensures GoodEntry(d, f, es[k])
    {
      var m :| 0 <= m < |ps| && SliceOf(es[k], ps[m]);
      SliceFree(es[k], ps[m], ',');
      SliceTransitive(es[k], ps[m], v);
      SliceFree(es[k], v, '\n');
      if d == Lean {
        OccurrenceInSlice(es[k], v, Key(f));
      }
    }
  }

  lemma ValueGood(d: Dialect, f: Field, line: string)
    requires Key(f) <= line && Free(line, '\n')
    ensures Free(Value(d, f, line), '\n')
    ensures d.Lean? ==> NoOccurrence(Value(d, f, line), Key(f))
    ensures exists j :: 0 <= j <= |line[|Key(f)|..]| && Value(d, f, line) == line[|Key(f)|..][..j]
  {
    hide Key, Before, NoOccurrence;
    KeyFacts(d, f);
    var rest := line[|Key(f)|..];
    var j := |rest|;
    if d == Lean {
      j := BeforeSlice(rest, Key(f));
    }
    assert Value(d, f, line) == rest[..j];
  }

  lemma NumberFits(d: Dialect, v: string)
    ensures d.Rust? && ParseNumber(d, v).Some? ==> ParseNumber(d, v).value <= USIZE_MAX
  {
    hide Trim, ParseNatDec;
  }

  /** One good line keeps the shape. */
  lemma ApplyKeepsShape(d: Dialect, q: Program, line: string)
    requires WellShaped(d, q) && (d.Rust? ==> NoTrailingSpace(d, q.name))
    requires line != "" && Trimmed(d, line) && Free(line, '\n')
    requires Apply(d, q, line).Ok?
    ensures WellShaped(d, Apply(d, q, line).value)
    ensures d.Rust? ==> NoTrailingSpace(d, Apply(d, q, line).value.name)
  {
    hide Key, FieldOf, GoodEntries, Free, NoOccurrence, IsSpace, Entries, ParseBool, ParseNumber, Before;
    FieldOfPrefix(line);
    var field := FieldOf(line);
    if field.Some? {
      var f := field.value;
      var v := Value(d, f, line);
      ValueGood(d, f, line);
      EntriesGood(d, f, v);
      NumberFits(d, v);
      if d == Rust && v != "" {
        assert v[|v| - 1] == line[|line| - 1];
      }
    }
  }

  lemma {:induction false} ApplyAllKeepsShape(d: Dialect, q: Program, lines: seq<string>)
    requires WellShaped(d, q) && (d.Rust? ==> NoTrailingSpace(d, q.name))
    requires GoodLines(d, lines)
    requires ApplyAll(d, q, lines).Ok?
    ensures WellShaped(d, ApplyAll(d, q, lines).value)
    ensures d.Rust? ==> NoTrailingSpace(d, ApplyAll(d, q, lines).value.name)
    decreases lines
  {
    hide WellShaped, NoTrailingSpace, Apply, Trimmed, Free;
    if lines != [] {
      ApplyKeepsShape(d, q, lines[0]);
      ApplyAllKeepsShape(d, Apply(d, q, lines[0]).value, lines[1..]);
    }
  }

  lemma CleanedLinesGood(d: Dialect, text: string)
    ensures GoodLines(d, Clean(d, Lines(d, text)))
  {
    hide Clean, Lines, Split, Trimmed, SliceOf, Free;
    CleanLines(d, text);
    var ps := Split(text, '\n');
    var ls := Clean(d, ps);
    CleanPieces(d, ps);
    CleanSlices(d, ps);
    SplitPieces(text, '\n');
    forall k | 0 <= k < |ls|
      ensures Free(ls[k], '\n')
    {
      var m :| 0 <= m < |ps| && SliceOf(ls[k], ps[m]);
      SliceFree(ls[k], ps[m], '\n');
    }
  }

  lemma GoodTail(d: Dialect, lines: seq<string>)
    requires lines != [] && GoodLines(d, lines)
    ensures GoodLines(d, lines[1..])
  {
    hide Trimmed, Free;
  }

  lemma AcceptedShape(d: Dialect, text: string)
    requires ParseText(d, text).Ok?
    ensures
      var p := ParseText(d, text).value;
      WellShaped(d, p) && p.allow != [] && (d.Rust? ==> NoTrailingSpace(d, p.name))
  {
    hide ApplyAll, Clean, Lines, V1, V2, GoodLines;
    var lines := Clean(d, Lines(d, text));
    CleanedLinesGood(d, text);
    GoodTail(d, lines);
    assert WellShaped(d, EMPTY) by {
      FreeEmpty('\n');
      KeyFacts(d, NameField);
      NoOccurrenceInEmpty(Key(NameField));
    }
    ApplyAllKeepsShape(d, EMPTY, lines[1..]);
  }

  // ---------- Main results on printing and parsing ----------

  lemma TrimEndFixed(d: Dialect, n: string)
    ensures TrimEnd(d, n) == n <==> NoTrailingSpace(d, n)
  {
    hide IsSpace;
    if n != "" && IsSpace(d, n[|n| - 1]) {
      var j := TrimEndSlice(d, n[..|n| - 1]);
      assert |TrimEnd(d, n)| < |n|;
    }
  }

  /** A program survives printing and parsing exactly when it is canonical and its text is within the limit. */
  lemma RoundTrip(d: Dialect, p: Program, limit: nat)
    ensures Parse(d, Encode(Serialize(p)), limit) == Ok(p) <==> Canonical(d, p) && Size(Serialize(p)) <= limit
  {
    hide ParseText, Serialize, Encode, WellShaped, TrimEnd, FromUtf8, NoTrailingSpace;
    FromUtf8OfEncode(Serialize(p));
    if ParseText(d, Serialize(p)) == Ok(p) {
      AcceptedShape(d, Serialize(p));
    }
    if WellShaped(d, p) && p.allow != [] {
      PrintThenParse(d, p);
      TrimEndFixed(d, p.name);
    }
  }

  /** What a printed line says about the program, whatever the other lines are. */
  lemma LineTells(p: Program, line: string)
    requires line in FieldLines(p)
    ensures
      match FieldOf(line)
      case Some(NameField) => p.name != "" && line == Key(NameField) + p.name
      case Some(AllowField) => line == AllowLine(p)
      case Some(DenyField) => p.deny != [] && line == Key(DenyField) + Join(p.deny, ',')
      case Some(InteractionField) => p.requireInteraction
      case Some(MaxInputField) => p.maxInput.Some? && line == Key(MaxInputField) + NatToDec(p.maxInput.value)
      case None => false
  {
    hide Key, FieldOf, Join, NatToDec;
    FieldOfKey(NameField, p.name);
    FieldOfKey(AllowField, Join(p.allow, ','));
    FieldOfKey(DenyField, Join(p.deny, ','));
    FieldOfKey(InteractionField, "true");
    if p.maxInput.Some? {
      FieldOfKey(MaxInputField, NatToDec(p.maxInput.value));
    }
  }

  lemma LinesPresent(p: Program)
    ensures p.name != "" ==> Key(NameField) + p.name in FieldLines(p)
    ensures AllowLine(p) in FieldLines(p)
    ensures p.deny != [] ==> Key(DenyField) + Join(p.deny, ',') in FieldLines(p)
    ensures p.requireInteraction ==> Key(InteractionField) + "true" in FieldLines(p)
    ensures p.maxInput.Some? ==> Key(MaxInputField) + NatToDec(p.maxInput.value) in FieldLines(p)
  {
    hide Key, Join, NatToDec, AllowLine;
  }

  lemma SameAfterKey(f: Field, v: string, w: string)
    requires Key(f) + v == Key(f) + w
    ensures v == w
  {
    hide Key;
    assert (Key(f) + v)[|Key(f)|..] == v && (Key(f) + w)[|Key(f)|..] == w;
  }

  lemma SameList(d: Dialect, e: Dialect, f: Field, a: seq<string>, b: seq<string>)
    requires GoodEntries(d, f, a) && GoodEntries(e, f, b) && a != [] && b != []
    requires Key(f) + Join(a, ',') == Key(f) + Join(b, ',')
    ensures a == b
  {
    hide Key, Join, Split, Trimmed, NoOccurrence;
    SameAfterKey(f, Join(a, ','), Join(b, ','));
    SplitOfJoin(a, ',');
    SplitOfJoin(b, ',');
  }

  /** Equal field lines tell equal fields: one direction. */
  lemma SameFields(d: Dialect, p: Program, e: Dialect, q: Program)
    requires WellShaped(d, p) && WellShaped(e, q) && p.allow != [] && q.allow != []
    requires FieldLines(p) == FieldLines(q)
    ensures p.name != "" ==> q.name == p.name
    ensures p.allow == q.allow
    ensures p.deny != [] ==> q.deny == p.deny
    ensures p.requireInteraction ==> q.requireInteraction
    ensures p.maxInput.Some? ==> q.maxInput == p.maxInput
  {
    hide FieldLines, Key, Join, NatToDec, FieldOf, GoodEntries, GoodName;
    LinesPresent(p);
    FieldOfKey(AllowField, Join(p.allow, ','));
    LineTells(q, AllowLine(p));
    SameList(d, e, AllowField, p.allow, q.allow);
    if p.name != "" {
      FieldOfKey(NameField, p.name);
      LineTells(q, Key(NameField) + p.name);
      SameAfterKey(NameField, p.name, q.name);
    }
    if p.deny != [] {
      FieldOfKey(DenyField, Join(p.deny, ','));
      LineTells(q, Key(DenyField) + Join(p.deny, ','));
      SameList(d, e, DenyField, p.deny, q.deny);
    }
    if p.requireInteraction {
      FieldOfKey(InteractionField, "true");
      LineTells(q, Key(InteractionField) + "true");
    }
    if p.maxInput.Some? {
      var n := p.maxInput.value;
      FieldOfKey(MaxInputField, NatToDec(n));
      LineTells(q, Key(MaxInputField) + NatToDec(n));
      SameAfterKey(MaxInputField, NatToDec(n), NatToDec(q.maxInput.value));
      DecRoundTrip(n);
      DecRoundTrip(q.maxInput.value);
    }
  }

  /** Programs as either parser returns them are equal when their texts are, even across the two languages. */
  lemma SerializeInjective(d: Dialect, p: Program, e: Dialect, q: Program)
    requires WellShaped(d, p) && WellShaped(e, q) && p.allow != [] && q.allow != []
    requires Serialize(p) == Serialize(q)
    ensures p == q
  {
    hide Serialize, FieldLines, WellShaped, Split;
    SplitOfPrint(d, p);
    SplitOfPrint(e, q);
    SameMiddle([WireVersion(p)], FieldLines(p), [WireVersion(q)], FieldLines(q), [""]);
    SameFields(d, p, e, q);
    SameFields(e, q, d, p);
  }

  lemma SameMiddle<T>(a: seq<T>, x: seq<T>, b: seq<T>, y: seq<T>, c: seq<T>)
    requires |a| == |b| && a + x + c == b + y + c
    ensures x == y
  {
    assert |x| == |y|;
    assert (a + x + c)[|a|..|a| + |x|] == x && (b + y + c)[|b|..|b| + |y|] == y;
  }

  /** Every text that Rust accepts gives a canonical program; Lean may in addition keep white space at the end of a name
      that was cut at a second `name=`. */
  lemma AcceptedIsCanonical(d: Dialect, text: string)
    requires ParseText(d, text).Ok?
    ensures
      var p := ParseText(d, text).value;
      (Canonical(d, p) <==> NoTrailingSpace(d, p.name)) && (d.Rust? ==> Canonical(d, p))
  {
    hide ParseText, WellShaped, NoTrailingSpace;
    AcceptedShape(d, text);
  }

  // ---------- The size of the normal form ----------

  function AllowCost(p: Program): nat {
    if p.allow == [] then 0 else Total([AllowLine(p)])
  }

  /** Bytes of the printed field lines, with `require_interaction=true` counted as if the flag were one byte. */
  function Cost(p: Program): nat {
    Total(NameLines(p)) + AllowCost(p) + Total(DenyLines(p)) + (if p.requireInteraction then 22 else 0) +
    Total(MaxInputLines(p))
  }

  lemma ValueSize(d: Dialect, f: Field, line: string)
    requires Key(f) <= line
    ensures Size(Value(d, f, line)) + |Key(f)| <= Size(line)
    ensures Size(Key(f) + Value(d, f, line)) == Size(Value(d, f, line)) + |Key(f)|
  {
    hide Key, Size, Before;
    var rest := line[|Key(f)|..];
    assert line == Key(f) + rest;
    KeySize(f);
    EncodeAppend(Key(f), rest);
    EncodeAppend(Key(f), Value(d, f, line));
    if d == Lean {
      KeyFacts(d, f);
      var j := BeforeSlice(rest, Key(f));
      SliceSize(rest, 0, j);
    }
  }

  /** A list prints in no more bytes than the text it was read from. */
  lemma ListSize(d: Dialect, f: Field, v: string)
    requires Entries(d, v) != []
    ensures Size(Key(f) + Join(Entries(d, v), ',')) <= Size(v) + |Key(f)|
  {
    hide Key, Size, Clean, Split, Join;
    var es := Entries(d, v);
    SplitPieces(v, ',');
    JoinSize(Split(v, ','), ',');
    CleanPieces(d, Split(v, ','));
    JoinSize(es, ',');
    KeySize(f);
    EncodeAppend(Key(f), Join(es, ','));
  }

  /** So does a number. */
  lemma NumberSize(d: Dialect, v: string)
    requires ParseNumber(d, v).Some?
    ensures Size(Key(MaxInputField) + NatToDec(ParseNumber(d, v).value)) <= Size(v) + |Key(MaxInputField)|
  {
    hide Key, Size, Trim, NatToDec, DecValue;
    var t := Trim(d, v);
    TrimSize(d, v);
    var digits := if d.Rust? && t != "" && t[0] == '+' then t[1..] else t;
    PrintedIsShortest(digits);
    DigitsSize(digits);
    DigitsSize(NatToDec(ParseNumber(d, v).value));
    if digits != t {
      SliceSize(t, 1, |t|);
      assert t[1..|t|] == digits;
    }
    KeySize(MaxInputField);
    EncodeAppend(Key(MaxInputField), NatToDec(ParseNumber(d, v).value));
  }

  lemma FlagSize(d: Dialect, v: string)
    requires ParseBool(d, v).Some?
    ensures Size(v) >= 1
  {
    hide Size, Trim;
    TrimSize(d, v);
    TextSize(Trim(d, v));
  }

  lemma TextSize(s: string)
    ensures s != "" ==> Size(s) >= 1
  {
    hide EncodeChar;
  }

  lemma TotalOfOne(line: string)
    ensures Total([line]) == Size(line) + 1
  {
    hide Size;
    assert Total([line][1..]) == 0;
  }

  lemma ApplyCost(d: Dialect, q: Program, line: string)
    requires Apply(d, q, line).Ok?
    ensures Cost(Apply(d, q, line).value) <= Cost(q) + Size(line) + 1
  {
    hide Key, FieldOf, Size, Value, Entries, ParseBool, ParseNumber, Total, Join, NatToDec;
    FieldOfPrefix(line);
    var field := FieldOf(line);
    if field.Some? {
      var f := field.value;
      var v := Value(d, f, line);
      ValueSize(d, f, line);
      match f {
        case NameField =>
          TotalOfOne(Key(NameField) + v);
          TotalOfNone();
        case AllowField =>
          if Entries(d, v) != [] {
            ListSize(d, f, v);
            TotalOfOne(Key(AllowField) + Join(Entries(d, v), ','));
          }
        case DenyField =>
          if Entries(d, v) != [] {
            ListSize(d, f, v);
            TotalOfOne(Key(DenyField) + Join(Entries(d, v), ','));
          }
          TotalOfNone();
        case InteractionField =>
          FlagSize(d, v);
          InteractionKeyLength();
        case MaxInputField =>
          NumberSize(d, v);
          TotalOfOne(Key(MaxInputField) + NatToDec(ParseNumber(d, v).value));
      }
    }
  }

  lemma TotalOfNone()
    ensures Total([]) == 0
  {
  }

  lemma InteractionKeyLength()
    ensures |Key(InteractionField)| == 20
  {
  }

  lemma {:induction false} ApplyAllCost(d: Dialect, q: Program, lines: seq<string>)
    requires ApplyAll(d, q, lines).Ok?
    ensures Cost(ApplyAll(d, q, lines).value) <= Cost(q) + Total(lines)
    decreases lines
  {
    hide Cost, Apply, Size;
    if lines != [] {
      ApplyCost(d, q, lines[0]);
      ApplyAllCost(d, Apply(d, q, lines[0]).value, lines[1..]);
    }
  }

  lemma PrintedTotal(p: Program)
    requires p.allow != []
    ensures Size(Serialize(p)) == 23 + Cost(p) + (if p.requireInteraction then 3 else 0)
  {
    hide Key, V1, V2, Size, Total, NameLines, AllowLine, DenyLines, MaxInputLines, Join;
    var ls := [WireVersion(p)] + FieldLines(p);
    JoinSize(ls, '\n');
    EncodeAppend(Join(ls, '\n'), "\n");
    SizeOfAscii('\n');
    VersionSizes();
    TotalOfOne(WireVersion(p));
    TotalAppend([WireVersion(p)], FieldLines(p));
    TotalAppend(NameLines(p) + [AllowLine(p)] + DenyLines(p) + InteractionLines(p), MaxInputLines(p));
    TotalAppend(NameLines(p) + [AllowLine(p)] + DenyLines(p), InteractionLines(p));
    TotalAppend(NameLines(p) + [AllowLine(p)], DenyLines(p));
    TotalAppend(NameLines(p), [AllowLine(p)]);
    FlagLineTotal(p);
  }

  lemma FlagLineTotal(p: Program)
    ensures Total(InteractionLines(p)) == if p.requireInteraction then 25 else 0
  {
    hide Size, Key, Total;
    TotalOfNone();
    if p.requireInteraction {
      InteractionKeyLength();
      EncodeAppend(Key(InteractionField), "true");
      AsciiSize("true");
      KeySize(InteractionField);
      TotalOfOne(Key(InteractionField) + "true");
    }
  }

  /** The normal form of an accepted text is at most four bytes longer: three when the flag was written "1", and one for
      a missing final newline. */
  lemma NormalFormSize(d: Dialect, text: string)
    requires ParseText(d, text).Ok?
    ensures
      var p := ParseText(d, text).value;
      Size(Serialize(p)) <= Size(text) + 1 + (if p.requireInteraction then 3 else 0)
  {
    hide Clean, Lines, Split, V1, V2, Total, Size, Cost, ApplyAll, Serialize, Join;
    var lines := Clean(d, Lines(d, text));
    var p := ParseText(d, text).value;
    CleanLines(d, text);
    SplitPieces(text, '\n');
    JoinSize(Split(text, '\n'), '\n');
    CleanPieces(d, Split(text, '\n'));
    assert lines == [lines[0]] + lines[1..];
    TotalAppend([lines[0]], lines[1..]);
    TotalOfOne(lines[0]);
    VersionSizes();
    ApplyAllCost(d, EMPTY, lines[1..]);
    assert Cost(EMPTY) == 0 by { EmptyCost(); }
    PrintedTotal(p);
  }

  lemma EmptyCost()
    ensures Cost(EMPTY) == 0
  {
  }

  /** Every text that Rust accepts has a normal form: the program it denotes prints as a text that denotes the same
      program, and that text fits whenever the limit leaves four bytes of room. */
  lemma NormalForm(bytes: seq<byte>, limit: nat, roomy: nat)
    requires Parse(Rust, bytes, limit).Ok? && |bytes| + 4 <= roomy
    ensures
      var p := Parse(Rust, bytes, limit).value;
      Parse(Rust, Encode(Serialize(p)), roomy) == Ok(p)
  {
    hide ParseText, Serialize, Encode, Canonical, WellShaped, FromUtf8;
    var text := FromUtf8(bytes).value;
    assert Encode(text) == bytes by { FromUtf8Text(bytes); }
    var p := ParseText(Rust, text).value;
    AcceptedIsCanonical(Rust, text);
    NormalFormSize(Rust, text);
    RoundTrip(Rust, p, roomy);
  }

  /** The four bytes are needed: a flag written "1" in a text without a final newline. */
  lemma NormalFormBoundReached(d: Dialect)
    ensures
      var p := Program("", ["x"], [], true, None);
      var text := Join([V2(), AllowLine(p), Key(InteractionField) + "1"], '\n');
      ParseText(d, text) == Ok(p) && Size(Serialize(p)) == Size(text) + 4
  {
    hide V1, V2, AllowLine, Join, Size, Serialize, Total, Clean, Split, Lines, ApplyAll, Key, Cost, Trimmed, Free, IsSpace;
    var p := Program("", ["x"], [], true, None);
    var flag := Key(InteractionField) + "1";
    var ls := [V2(), AllowLine(p), flag];
    ShortLinesGood(d, p);
    SplitOfJoin(ls, '\n');
    CleanFixed(d, ls);
    CleanLines(d, Join(ls, '\n'));
    ShortLinesRead(d, p);
    assert ls[1..] == [AllowLine(p), flag];
    VersionFacts(d);
    JoinSize(ls, '\n');
    assert ls == [V2()] + [AllowLine(p)] + [flag];
    TotalAppend([V2()] + [AllowLine(p)], [flag]);
    TotalAppend([V2()], [AllowLine(p)]);
    TotalOfOne(V2());
    TotalOfOne(flag);
    VersionSizes();
    FlagOneSize();
    PrintedTotal(p);
    ShortCost(p);
  }

  lemma ShortLinesGood(d: Dialect, p: Program)
    requires p == Program("", ["x"], [], true, None)
    ensures GoodLines(d, [V2(), AllowLine(p), Key(InteractionField) + "1"])
  {
    hide V2, Key, Trimmed, Free, IsSpace;
    VersionFacts(d);
    ShortTexts(d);
    assert AllowLine(p) == Key(AllowField) + "x";
    LineOf(d, AllowField, "x");
    GoodLine(d, AllowField, "x");
    LineOf(d, InteractionField, "1");
    GoodLine(d, InteractionField, "1");
  }

  lemma ShortTexts(d: Dialect)
    ensures Trimmed(d, "x") && Trimmed(d, "1") && Free("x", '\n') && Free("1", '\n') && Free("x", ',')
    ensures forall f :: NoOccurrence("x", Key(f)) && NoOccurrence("1", Key(f))
  {
  }

  lemma ShortLinesRead(d: Dialect, p: Program)
    requires p == Program("", ["x"], [], true, None)
    ensures ApplyAll(d, EMPTY, [AllowLine(p), Key(InteractionField) + "1"]) == Ok(p)
  {
    hide Key, Trimmed, Free, NoOccurrence, FieldOf, Value, ParseBool, ApplyAll;
    var flag := Key(InteractionField) + "1";
    ShortTexts(d);
    ReadAllowLine(d, EMPTY, p);
    ApplyOne(d, EMPTY.(allow := ["x"]), flag);
    FieldOfKey(InteractionField, "1");
    PlainValue(d, InteractionField, "1");
    OneIsTrue(d);
    ApplyAllAppend(d, EMPTY, [AllowLine(p)], [flag]);
    assert [AllowLine(p)] + [flag] == [AllowLine(p), flag];
  }

  lemma OneIsTrue(d: Dialect)
    ensures ParseBool(d, "1") == Some(true)
  {
    ShortTexts(d);
    TrimFixed(d, "1");
  }

  lemma FlagOneSize()
    ensures Size(Key(InteractionField) + "1") == 21
  {
    hide Size, Key;
    EncodeAppend(Key(InteractionField), "1");
    SizeOfAscii('1');
    KeySize(InteractionField);
    InteractionKeyLength();
  }

  lemma ShortCost(p: Program)
    requires p == Program("", ["x"], [], true, None)
    ensures Cost(p) == Total([AllowLine(p)]) + 22
  {
    hide AllowLine;
  }

  function Hashes(n: nat): string {
    if n == 0 then "" else "#" + Hashes(n - 1)
  }

  lemma {:induction false} HashesAreHashes(n: nat)
    ensures |Hashes(n)| == n && forall i :: 0 <= i < n ==> Hashes(n)[i] == '#'
  {
    if n > 0 {
      HashesAreHashes(n - 1);
    }
  }

  /** A small program with a long comment: accepted texts of every size from 33 bytes on. */
  function Commented(n: nat): string {
    Join([V1(), AllowLine(Program("", ["x"], [], false, None)), Hashes(n)], '\n')
  }

  lemma CommentedReads(d: Dialect, n: nat)
    requires n > 0
    ensures ParseText(d, Commented(n)) == Ok(Program("", ["x"], [], false, None))
    ensures Size(Commented(n)) == 31 + n
  {
    hide V1, V2, AllowLine, Join, Size, Total, Clean, Split, Lines, ApplyAll, Key, Trimmed, Free, IsSpace, Hashes, Apply;
    var p := Program("", ["x"], [], false, None);
    var ls := [V1(), AllowLine(p), Hashes(n)];
    CommentedLines(d, p, n);
    SplitOfJoin(ls, '\n');
    CleanFixed(d, ls);
    CleanLines(d, Join(ls, '\n'));
    CommentSkipped(d, p, n);
    assert ls[1..] == [AllowLine(p), Hashes(n)];
    JoinSize(ls, '\n');
    assert ls == [V1()] + [AllowLine(p)] + [Hashes(n)];
    TotalAppend([V1()] + [AllowLine(p)], [Hashes(n)]);
    TotalAppend([V1()], [AllowLine(p)]);
    TotalOfOne(V1());
    TotalOfOne(AllowLine(p));
    TotalOfOne(Hashes(n));
    VersionSizes();
    CommentSize(p, n);
  }

  lemma CommentedLines(d: Dialect, p: Program, n: nat)
    requires p == Program("", ["x"], [], false, None) && n > 0
    ensures GoodLines(d, [V1(), AllowLine(p), Hashes(n)])
  {
    hide V1, Key, Trimmed, Free, IsSpace, Hashes;
    VersionFacts(d);
    ShortTexts(d);
    assert AllowLine(p) == Key(AllowField) + "x";
    LineOf(d, AllowField, "x");
    GoodLine(d, AllowField, "x");
    HashesTrimmed(d, n);
  }

  lemma HashesTrimmed(d: Dialect, n: nat)
    requires n > 0
    ensures Hashes(n) != "" && Trimmed(d, Hashes(n)) && Free(Hashes(n), '\n') && FieldOf(Hashes(n)) == None
    ensures Hashes(n)[0] == '#'
  {
    hide Hashes;
    HashesAreHashes(n);
    assert !IsSpace(d, '#');
  }

  lemma CommentSkipped(d: Dialect, p: Program, n: nat)
    requires p == Program("", ["x"], [], false, None) && n > 0
    ensures ApplyAll(d, EMPTY, [AllowLine(p), Hashes(n)]) == Ok(p)
  {
    hide Key, Trimmed, Free, NoOccurrence, FieldOf, Value, ParseBool, ApplyAll, Hashes;
    ShortTexts(d);
    ReadAllowLine(d, EMPTY, p);
    HashesTrimmed(d, n);
    ApplyOne(d, p, Hashes(n));
    ApplyAllAppend(d, EMPTY, [AllowLine(p)], [Hashes(n)]);
    assert [AllowLine(p)] + [Hashes(n)] == [AllowLine(p), Hashes(n)];
  }

  lemma CommentSize(p: Program, n: nat)
    requires p == Program("", ["x"], [], false, None)
    ensures Size(AllowLine(p)) == 7 && Size(Hashes(n)) == n
  {
    hide Size, Key, Hashes;
    assert AllowLine(p) == Key(AllowField) + "x";
    EncodeAppend(Key(AllowField), "x");
    SizeOfAscii('x');
    KeySize(AllowField);
    AllowKeyLength();
    HashesAreHashes(n);
    AsciiSize(Hashes(n));
  }

  lemma AllowKeyLength()
    ensures |Key(AllowField)| == 6
  {
  }

  // ---------- The two parsers ----------

  /** A line on which the two dialects' string primitives give the same value. */
  ghost predicate SafeLine(line: string) {
    match FieldOf(line)
    case None => true
    case Some(f) =>
      FieldOfPrefix(line);
      var rest := line[|Key(f)|..];
      NoOccurrence(rest, Key(f)) && (f == MaxInputField ==> SafeNumber(Trim(Rust, rest)))
  }

  /** No plus sign, and no overflow of `usize`. */
  predicate SafeNumber(s: string) {
    (s != "" ==> s[0] != '+') && (ParseNatDec(s).Some? ==> ParseNatDec(s).value <= USIZE_MAX)
  }

  ghost predicate SafeText(text: string) {
    && Plain(text)
    && forall k :: 0 <= k < |Clean(Rust, Lines(Rust, text))| ==> SafeLine(Clean(Rust, Lines(Rust, text))[k])
  }

  lemma SlicePlain(t: string, s: string)
    requires SliceOf(t, s) && Plain(s)
    ensures Plain(t)
  {
    hide IsSpace;
    var i, j :| 0 <= i <= j <= |s| && t == s[i..j];
  }

  lemma CleanedLinesAgree(text: string)
    requires Plain(text)
    ensures Clean(Rust, Lines(Rust, text)) == Clean(Lean, Lines(Lean, text))
    ensures forall k :: 0 <= k < |Clean(Rust, Lines(Rust, text))| ==> Plain(Clean(Rust, Lines(Rust, text))[k])
  {
    hide Clean, Lines, Split, Plain, SliceOf;
    var ps := Split(text, '\n');
    CleanLines(Rust, text);
    CleanLines(Lean, text);
    SplitSlices(text, '\n');
    forall k | 0 <= k < |ps|
      ensures Plain(ps[k])
    {
      SlicePlain(ps[k], text);
    }
    CleanAgrees(ps);
    CleanSlices(Rust, ps);
    forall k | 0 <= k < |Clean(Rust, ps)|
      ensures Plain(Clean(Rust, ps)[k])
    {
      var m :| 0 <= m < |ps| && SliceOf(Clean(Rust, ps)[k], ps[m]);
      SlicePlain(Clean(Rust, ps)[k], ps[m]);
    }
  }

  lemma EntriesAgree(v: string)
    requires Plain(v)
    ensures Entries(Rust, v) == Entries(Lean, v)
  {
    hide Plain, Split, Clean, SliceOf;
    var ps := Split(v, ',');
    SplitSlices(v, ',');
    forall k | 0 <= k < |ps|
      ensures Plain(ps[k])
    {
      SlicePlain(ps[k], v);
    }
    CleanAgrees(ps);
  }

  lemma NumberAgrees(v: string)
    requires Plain(v) && SafeNumber(Trim(Rust, v))
    ensures ParseNumber(Rust, v) == ParseNumber(Lean, v)
  {
    hide Plain, Trim, DecValue;
    TrimAgrees(v);
  }

  lemma ApplyAgrees(q: Program, line: string)
    requires Plain(line) && SafeLine(line)
    ensures Apply(Rust, q, line) == Apply(Lean, q, line)
  {
    hide Key, FieldOf, Plain, Entries, Trim, ParseNumber, NoOccurrence, Before, SliceOf, SafeNumber;
    FieldOfPrefix(line);
    if FieldOf(line).Some? {
      var f := FieldOf(line).value;
      var rest := line[|Key(f)|..];
      KeyFacts(Lean, f);
      BeforeAll(rest, Key(f));
      assert line[|Key(f)|..|line|] == rest;
      SliceIntro(line, |Key(f)|, |line|);
      SlicePlain(rest, line);
      EntriesAgree(rest);
      TrimAgrees(rest);
      if f == MaxInputField {
        NumberAgrees(rest);
      }
    }
  }

  lemma {:induction false} ApplyAllAgrees(q: Program, lines: seq<string>)
    requires forall k :: 0 <= k < |lines| ==> Plain(lines[k]) && SafeLine(lines[k])
    ensures ApplyAll(Rust, q, lines) == ApplyAll(Lean, q, lines)
    decreases lines
  {
    hide Plain, SafeLine, Apply;
    if lines != [] {
      ApplyAgrees(q, lines[0]);
      if Apply(Rust, q, lines[0]).Ok? {
        ApplyAllAgrees(Apply(Rust, q, lines[0]).value, lines[1..]);
      }
    }
  }

  /** On safe texts the two parsers give the same result, errors included. */
  lemma ParsersAgree(text: string)
    requires SafeText(text)
    ensures ParseText(Rust, text) == ParseText(Lean, text)
  {
    hide Plain, SafeLine, Clean, Lines, ApplyAll, V1, V2;
    CleanedLinesAgree(text);
    var lines := Clean(Rust, Lines(Rust, text));
    if lines != [] {
      ApplyAllAgrees(EMPTY, lines[1..]);
    }
  }

  /** On the text of a program that is canonical for Rust, Lean reads the same program exactly when it is canonical for
      Lean too: no field repeats its own key. */
  lemma ParsersAgreeOnPrint(p: Program)
    requires Canonical(Rust, p)
    ensures ParseText(Rust, Serialize(p)) == ParseText(Lean, Serialize(p)) <==> Canonical(Lean, p)
  {
    hide ParseText, Serialize, Canonical, Encode, FromUtf8;
    var n := Size(Serialize(p));
    RoundTrip(Rust, p, n);
    RoundTrip(Lean, p, n);
    FromUtf8OfEncode(Serialize(p));
  }

  /** The program `name=a name=b`, `allow=x`: Rust reads the name whole, Lean stops at the second key and keeps the
      blank before it, which the next print and parse then drop. */
  lemma RepeatedKeyExample()
    ensures
      var p := Program("a name=b", ["x"], [], false, None);
      Canonical(Rust, p) && !Canonical(Lean, p) && ParseText(Lean, Serialize(p)) != ParseText(Rust, Serialize(p))
  {
    hide ParseText, Serialize, IsSpace;
    var p := Program("a name=b", ["x"], [], false, None);
    assert !IsSpace(Rust, 'b') && !IsSpace(Rust, 'x') by { LettersAreNotSpace(); }
    assert Canonical(Rust, p);
    assert "a name=b"[2..7] == "name=";
    assert At("a name=b", 2, "name=");
    assert !NoOccurrence("a name=b", Key(NameField));
    ParsersAgreeOnPrint(p);
  }

  /** A program that Lean accepts and that does not survive its own printing: from that text Lean keeps the blank before
      the second key. */
  lemma RepeatedKeyNotStable(limit: nat)
    ensures
      var text, q := Serialize(Program("a name=b", ["x"], [], false, None)), Program("a ", ["x"], [], false, None);
      ParseText(Lean, text) == Ok(q) && Parse(Lean, Encode(Serialize(q)), limit) != Ok(q)
  {
    hide Serialize, Clean, Lines, Split, ApplyAll, V1, V2, Encode, Parse, AllowLine, Key;
    var p, q := Program("a name=b", ["x"], [], false, None), Program("a ", ["x"], [], false, None);
    var line := Key(NameField) + "a name=b";
    var ls := [V1(), line, AllowLine(p)];
    RepeatedKeyLines(p);
    assert ls == [V1()] + [line, AllowLine(p)] && ls[1..] == [line, AllowLine(p)];
    RepeatedKeyRead(p);
    VersionFacts(Lean);
    RoundTrip(Lean, q, limit);
    assert q.name[1] == ' ';
  }

  /** The lines of that text, as Lean sees them. */
  lemma RepeatedKeyLines(p: Program)
    requires p == Program("a name=b", ["x"], [], false, None)
    ensures Clean(Lean, Lines(Lean, Serialize(p))) == [V1(), Key(NameField) + "a name=b", AllowLine(p)]
  {
    hide Serialize, Clean, Lines, Split, V1, V2, Key, IsSpace, Free, Trimmed;
    var line := Key(NameField) + "a name=b";
    var ls := [V1(), line, AllowLine(p)];
    RepeatedKeyCanonical(p);
    SplitOfPrint(Rust, p);
    assert Split(Serialize(p), '\n') == ls + [""];
    CleanLines(Lean, Serialize(p));
    CleanAppend(Lean, ls, [""]);
    CleanEmptyLine(Lean);
    ShortTexts(Lean);
    NameIsTrimmed();
    LineOf(Lean, NameField, "a name=b");
    assert AllowLine(p) == Key(AllowField) + "x";
    LineOf(Lean, AllowField, "x");
    KeyFacts(Lean, NameField);
    KeyFacts(Lean, AllowField);
    VersionFacts(Lean);
    CleanFixed(Lean, ls);
  }

  lemma NameIsTrimmed()
    ensures Trimmed(Lean, "a name=b") && Free("a name=b", '\n')
  {
  }

  lemma RepeatedKeyCanonical(p: Program)
    requires p == Program("a name=b", ["x"], [], false, None)
    ensures Canonical(Rust, p)
  {
    hide IsSpace;
    LettersAreNotSpace();
  }

  lemma RepeatedKeyRead(p: Program)
    requires p == Program("a name=b", ["x"], [], false, None)
    ensures ApplyAll(Lean, EMPTY, [Key(NameField) + "a name=b", AllowLine(p)]) ==
            Ok(Program("a ", ["x"], [], false, None))
  {
    hide Key, Trimmed, Free, NoOccurrence, FieldOf, ParseBool, ApplyAll, Before, At, AllowLine;
    var line := Key(NameField) + "a name=b";
    assert line[|Key(NameField)|..] == "a name=b";
    CutAtSecondName();
    FieldOfKey(NameField, "a name=b");
    ApplyOne(Lean, EMPTY, line);
    ShortTexts(Lean);
    ReadAllowLine(Lean, EMPTY.(name := "a "), p);
    ApplyAllAppend(Lean, EMPTY, [line], [AllowLine(p)]);
    assert [line] + [AllowLine(p)] == [line, AllowLine(p)];
  }

  lemma CutAtSecondName()
    ensures Before("a name=b", Key(NameField)) == "a "
  {
    var s := "a name=b";
    assert s[1..] == " name=b" && s[1..][1..] == "name=b";
    assert s[..5] != "name=" by { assert s[..5][0] == 'a'; }
    assert s[1..][..5] != "name=" by { assert s[1..][..5][0] == ' '; }
    assert "name=b"[..5] == "name=";
    assert Before("name=b", "name=") == "";
    assert Before(" name=b", "name=") == " ";
  }

  lemma LettersAreNotSpace()
    ensures !IsSpace(Rust, 'b') && !IsSpace(Rust, 'x')
  {
  }
}
