// What the policy parser reads: which texts it accepts, and what each line of an accepted text means.

module ParserLaws {
  import opened Bytes
  import opened Wrappers
  import opened Text
  import opened Decimal
  import opened GuestProg
  import opened GuestProgLaws

  // ---------- The string primitives ----------

  predicate AllBlank(d: Dialect, s: string) {
    forall i :: 0 <= i < |s| ==> IsSpace(d, s[i])
  }

  lemma {:induction false} TrimStartMeans(d: Dialect, s: string) returns (i: nat)
    ensures i <= |s| && TrimStart(d, s) == s[i..] && AllBlank(d, s[..i]) && (i == |s| || !IsSpace(d, s[i]))
  {
    hide IsSpace;
    if s != "" && IsSpace(d, s[0]) {
      var j := TrimStartMeans(d, s[1..]);
      i := j + 1;
      assert s[1..][j..] == s[i..];
      assert s[..i] == [s[0]] + s[1..][..j];
    } else {
      i := 0;
    }
  }

  lemma {:induction false} TrimEndMeans(d: Dialect, s: string) returns (j: nat)
    ensures j <= |s| && TrimEnd(d, s) == s[..j] && AllBlank(d, s[j..]) && (j == 0 || !IsSpace(d, s[j - 1]))
  {
    hide IsSpace;
    if s != "" && IsSpace(d, s[|s| - 1]) {
      var t := s[..|s| - 1];
      j := TrimEndMeans(d, t);
      assert t[..j] == s[..j];
      assert s[j..] == t[j..] + [s[|s| - 1]];
    } else {
      j := |s|;
    }
  }

  /** Trimming removes the blanks at both ends and nothing else. */
  lemma TrimMeans(d: Dialect, s: string) returns (i: nat, j: nat)
    ensures i <= j <= |s| && Trim(d, s) == s[i..j]
    ensures AllBlank(d, s[..i]) && AllBlank(d, s[j..])
    ensures i < j ==> !IsSpace(d, s[i]) && !IsSpace(d, s[j - 1])
  {
    hide IsSpace, TrimStart, TrimEnd, AllBlank;
    i := TrimStartMeans(d, s);
    var k := TrimEndMeans(d, s[i..]);
    j := i + k;
    assert s[i..][..k] == s[i..j] && s[i..][k..] == s[j..];
    if k != 0 {
      assert s[i..][k - 1] == s[j - 1];
    }
  }

  /** Cleaning a list keeps its non-blank pieces, trimmed and in order. */
  lemma CleanMeans(d: Dialect, a: seq<string>, piece: string, b: seq<string>)
    ensures Clean(d, a + [piece] + b) ==
            Clean(d, a) + (if Trim(d, piece) == "" then [] else [Trim(d, piece)]) + Clean(d, b)
  {
    hide Trim;
    CleanAppend(d, a + [piece], b);
    CleanAppend(d, a, [piece]);
    assert Clean(d, [piece][1..]) == [];
  }

  /** The text before a key ends where the key first occurs. */
  lemma {:induction false} BeforeMeans(s: string, key: string) returns (j: nat)
    requires key != ""
    ensures j <= |s| && Before(s, key) == s[..j]
    ensures j < |s| ==> At(s, j, key)
    ensures forall i :: 0 <= i < j ==> !At(s, i, key)
  {
    hide At;
    if |s| < |key| {
      j := |s|;
      forall i: nat
        ensures !At(s, i, key)
      {
        AtInside(s, i, key);
      }
    } else if s[..|key|] == key {
      j := 0;
      PrefixAt(s, key);
    } else {
      var rest := s[1..];
      var k := BeforeMeans(rest, key);
      j := k + 1;
      assert s[..j] == [s[0]] + rest[..k];
      assert s == [s[0]] + rest;
      forall i: nat | 1 <= i
        ensures At(s, i, key) <==> At(rest, i - 1, key)
      {
        ShiftAt([s[0]], rest, i, key);
      }
      PrefixAt(s, key);
    }
  }

  // ---------- One line ----------

  /** The five keys; no line starts with two of them. */
  lemma FieldOfMeans(line: string)
    ensures FieldOf(line) == Some(NameField) <==> "name=" <= line
    ensures FieldOf(line) == Some(AllowField) <==> "allow=" <= line
    ensures FieldOf(line) == Some(DenyField) <==> "deny=" <= line
    ensures FieldOf(line) == Some(InteractionField) <==> "require_interaction=" <= line
    ensures FieldOf(line) == Some(MaxInputField) <==> "max_input_bytes=" <= line
  {
    FirstChars();
    forall f: Field | Key(f) <= line
      ensures line != "" && Key(f)[0] == line[0]
    {
    }
  }

  lemma FirstChars()
    ensures "name="[0] == 'n' && "allow="[0] == 'a' && "deny="[0] == 'd' && "require_interaction="[0] == 'r' &&
            "max_input_bytes="[0] == 'm'
  {
  }

  /** The value of a line in Rust is all that follows the key; Lean stops where the key occurs again. */
  predicate HasValue(d: Dialect, key: string, line: string, v: string) {
    key <= line && v <= line[|key|..] &&
    match d
    case Rust => v == line[|key|..]
    case Lean =>
      (forall i :: 0 <= i < |v| ==> !At(line[|key|..], i, key)) && (key + v != line ==> At(line[|key|..], |v|, key))
  }

  lemma ValueMeans(d: Dialect, f: Field, line: string)
    requires Key(f) <= line
    ensures HasValue(d, Key(f), line, Value(d, f, line))
  {
    hide Key, Before, At;
    KeyFacts(d, f);
    var rest := line[|Key(f)|..];
    if d == Lean {
      var j := BeforeMeans(rest, Key(f));
      assert Key(f) + rest == line;
      assert j == |rest| ==> rest[..j] == rest;
    }
  }

  /** The six words of a flag. */
  predicate SaysYes(w: string) {
    w == "true" || w == "1" || w == "yes"
  }

  predicate SaysNo(w: string) {
    w == "false" || w == "0" || w == "no"
  }

  lemma WordsDiffer(w: string)
    ensures !(SaysYes(w) && SaysNo(w))
  {
    if w != "" {
      assert SaysYes(w) ==> w[0] in "t1y";
      assert SaysNo(w) ==> w[0] in "f0n";
    }
  }

  /** What a flag line does: yes-words set the flag, no-words clear it, anything else is an error. */
  lemma FlagMeans(d: Dialect, p: Program, line: string)
    requires "require_interaction=" <= line
    ensures
      var w := Trim(d, Value(d, InteractionField, line));
      Apply(d, p, line) ==
        if SaysYes(w) then Ok(p.(requireInteraction := true))
        else if SaysNo(w) then Ok(p.(requireInteraction := false))
        else Err(BadBool)
  {
    hide Trim, FieldOf, Value;
    FieldOfMeans(line);
    WordsDiffer(Trim(d, Value(d, InteractionField, line)));
  }

  /** A number is digits, blanks around them ignored; Rust also takes one plus sign, and nothing over 64 bits. */
  lemma NumberMeans(d: Dialect, v: string)
    ensures
      var t := Trim(d, v);
      var digits := if d.Rust? && "+" <= t then t[1..] else t;
      ParseNumber(d, v) ==
        if digits != "" && AllDigits(digits) && (d.Rust? ==> DecValue(digits) < 0x1_0000_0000_0000_0000)
        then Some(DecValue(digits))
        else None
  {
    hide Trim, DecValue;
    var t := Trim(d, v);
    assert "+" <= t <==> t != "" && t[0] == '+';
  }

  /** What is wrong with a line, if anything. */
  function LineError(d: Dialect, line: string): (e: Option<Error>)
    ensures e.Some? ==> e.value.BadBool? || e.value.BadNumber? || e.value.BadLine?
  {
    if "name=" <= line || "allow=" <= line || "deny=" <= line then None
    else if "require_interaction=" <= line then
      FieldOfMeans(line);
      FieldOfPrefix(line);
      var w := Trim(d, Value(d, InteractionField, line));
      if SaysYes(w) || SaysNo(w) then None else Some(BadBool)
    else if "max_input_bytes=" <= line then
      FieldOfMeans(line);
      FieldOfPrefix(line);
      if ParseNumber(d, Value(d, MaxInputField, line)) == None then Some(BadNumber) else None
    else if "#" <= line then None
    else Some(BadLine)
  }

  /** Whether a line can be read does not depend on the lines before it. */
  lemma LineErrorMeans(d: Dialect, p: Program, line: string)
    ensures
      match Apply(d, p, line)
      case Ok(_) => LineError(d, line) == None
      case Err(e) => LineError(d, line) == Some(e)
  {
    hide Key, Trim, FieldOf, Value, ParseNumber, Entries, ParseBool;
    FieldOfMeans(line);
    if FieldOf(line) == Some(InteractionField) {
      FlagMeans(d, p, line);
    }
  }

  // ---------- All lines ----------

  /** Line k is the last one that starts with the key. */
  predicate IsLast(key: string, ls: seq<string>, k: nat) {
    k < |ls| && key <= ls[k] && forall j :: k < j < |ls| ==> !(key <= ls[j])
  }

  predicate Unused(key: string, ls: seq<string>) {
    forall k :: 0 <= k < |ls| ==> !(key <= ls[k])
  }

  /** The field f of the program is what its last line says, or the default when there is no line for it. */
  ghost predicate FieldRead(d: Dialect, f: Field, ls: seq<string>, p: Program) {
    (Unused(Key(f), ls) ==> HasDefault(f, p)) &&
    forall k: nat :: IsLast(Key(f), ls, k) ==> HasField(d, f, Value(d, f, ls[k]), p)
  }

  /** The program is what the last line of each key says. */
  ghost predicate Reads(d: Dialect, ls: seq<string>, p: Program) {
    forall f :: FieldRead(d, f, ls, p)
  }

  predicate HasDefault(f: Field, p: Program) {
    match f
    case NameField => p.name == ""
    case AllowField => p.allow == []
    case DenyField => p.deny == []
    case InteractionField => !p.requireInteraction
    case MaxInputField => p.maxInput == None
  }

  predicate HasField(d: Dialect, f: Field, v: string, p: Program) {
    match f
    case NameField => p.name == v
    case AllowField => p.allow == Clean(d, Split(v, ','))
    case DenyField => p.deny == Clean(d, Split(v, ','))
    case InteractionField => p.requireInteraction <==> SaysYes(Trim(d, v))
    case MaxInputField => p.maxInput == ParseNumber(d, v)
  }

  /** The keys, literally. */
  lemma Keys()
    ensures Key(NameField) == "name=" && Key(AllowField) == "allow=" && Key(DenyField) == "deny="
    ensures Key(InteractionField) == "require_interaction=" && Key(MaxInputField) == "max_input_bytes="
  {
  }

  predicate SameField(f: Field, p: Program, q: Program) {
    match f
    case NameField => p.name == q.name
    case AllowField => p.allow == q.allow
    case DenyField => p.deny == q.deny
    case InteractionField => p.requireInteraction == q.requireInteraction
    case MaxInputField => p.maxInput == q.maxInput
  }

  /** A line sets the field of its key, and no other. */
  lemma LineSets(d: Dialect, f: Field, p: Program, line: string)
    requires Apply(d, p, line).Ok?
    ensures Key(f) <= line ==> HasField(d, f, Value(d, f, line), Apply(d, p, line).value)
    ensures !(Key(f) <= line) ==> SameField(f, p, Apply(d, p, line).value)
  {
    hide Key, Trim, FieldOf, Value, ParseNumber, Split, Clean, ParseBool;
    Keys();
    FieldOfMeans(line);
    if FieldOf(line) == Some(InteractionField) {
      FlagMeans(d, p, line);
    }
  }

  lemma FieldReadSnoc(d: Dialect, f: Field, ls: seq<string>, p: Program, line: string)
    requires Apply(d, p, line).Ok? && FieldRead(d, f, ls, p)
    ensures FieldRead(d, f, ls + [line], Apply(d, p, line).value)
  {
    hide Key, Apply, Value, HasField, HasDefault, SameField;
    var all, q := ls + [line], Apply(d, p, line).value;
    LineSets(d, f, p, line);
    if Key(f) <= line {
      assert all[|ls|] == line;
      forall k: nat | IsLast(Key(f), all, k)
        ensures k == |ls|
      {
      }
    } else {
      assert forall k :: 0 <= k < |ls| ==> all[k] == ls[k];
      SameFieldKeeps(d, f, p, q);
      forall k: nat | IsLast(Key(f), all, k)
        ensures k < |ls| && IsLast(Key(f), ls, k)
      {
      }
    }
  }

  lemma SameFieldKeeps(d: Dialect, f: Field, p: Program, q: Program)
    requires SameField(f, p, q)
    ensures HasDefault(f, p) <==> HasDefault(f, q)
    ensures forall v :: HasField(d, f, v, p) <==> HasField(d, f, v, q)
  {
    hide Trim, Split, Clean, ParseNumber;
  }

  /** Line k is the first that cannot be read. */
  predicate FirstBad(d: Dialect, ls: seq<string>, k: nat) {
    k < |ls| && LineError(d, ls[k]).Some? && forall j :: 0 <= j < k ==> LineError(d, ls[j]) == None
  }

  /** Reading all lines: the first line that cannot be read gives the error; otherwise the last line of each key wins. */
  lemma {:induction false} LinesMean(d: Dialect, ls: seq<string>)
    ensures
      match ApplyAll(d, EMPTY, ls)
      case Ok(p) => (forall k :: 0 <= k < |ls| ==> LineError(d, ls[k]) == None) && Reads(d, ls, p)
      case Err(e) => exists k: nat :: FirstBad(d, ls, k) && LineError(d, ls[k]) == Some(e)
  {
    hide Key, Apply, ApplyAll, LineError, FieldRead;
    if ls == [] {
      NothingRead(d, EMPTY);
      forall f
        ensures FieldRead(d, f, ls, EMPTY)
      {
        DefaultsOf(d, f);
      }
    } else {
      var init, line := ls[..|ls| - 1], ls[|ls| - 1];
      assert ls == init + [line];
      LinesMean(d, init);
      ApplyAllAppend(d, EMPTY, init, [line]);
      match ApplyAll(d, EMPTY, init) {
        case Ok(p) =>
          ApplyOne(d, p, line);
          LineErrorMeans(d, p, line);
          if Apply(d, p, line).Ok? {
            forall f
              ensures FieldRead(d, f, ls, Apply(d, p, line).value)
            {
              FieldReadSnoc(d, f, init, p, line);
            }
          } else {
            assert FirstBad(d, ls, |init|);
          }
        case Err(e) =>
          var k: nat :| FirstBad(d, init, k) && LineError(d, init[k]) == Some(e);
          assert FirstBad(d, ls, k);
      }
    }
  }

  lemma DefaultsOf(d: Dialect, f: Field)
    ensures FieldRead(d, f, [], EMPTY)
  {
    hide Key;
  }

  // ---------- The whole text ----------

  /** The result of parsing, case by case: what an accepted text says, and what is wrong with any other. */
  lemma ParseMeans(d: Dialect, text: string)
    ensures
      var ls := Clean(d, Split(text, '\n'));
      var versioned := ls != [] && (ls[0] == "lean-tee-guest-prog/v1" || ls[0] == "lean-tee-guest-prog/v2");
      var readable := versioned && forall k :: 1 <= k < |ls| ==> LineError(d, ls[k]) == None;
      match ParseText(d, text)
      case Ok(p) =>
        readable && Reads(d, ls[1..], p) && p.allow != [] &&
        (ls[0] == "lean-tee-guest-prog/v1" ==> p.deny == [] && !p.requireInteraction && p.maxInput == None)
      case Err(e) =>
        match e
        case NoLines => ls == []
        case BadVersion => ls != [] && !versioned
        case EmptyAllow => readable && exists p: Program :: p.allow == [] && Reads(d, ls[1..], p)
        case V1Extended => readable && ls[0] == "lean-tee-guest-prog/v1" &&
          exists p: Program :: p.allow != [] && Extended(p) && Reads(d, ls[1..], p)
        case _ => versioned && exists k: nat :: FirstBad(d, ls[1..], k) && LineError(d, ls[k + 1]) == Some(e)
  {
    hide ApplyAll, LineError, Reads, Clean, Split, Lines;
    CleanLines(d, text);
    var ls := Clean(d, Split(text, '\n'));
    if ls != [] {
      LinesMean(d, ls[1..]);
      var r := ApplyAll(d, EMPTY, ls[1..]);
      if r.Ok? {
        assert forall k :: 1 <= k < |ls| ==> ls[k] == ls[1..][k - 1];
        assert Reads(d, ls[1..], r.value);
      }
    }
  }

  /** Of bytes, the size is tested before anything else, and then that they are text. */
  lemma ParseBytesMeans(d: Dialect, bytes: seq<byte>, limit: nat)
    ensures
      match Parse(d, bytes, limit)
      case Err(TooLarge) => |bytes| > limit
      case Err(NotUtf8) => |bytes| <= limit && FromUtf8(bytes) == None
      case r => |bytes| <= limit && exists text :: Encode(text) == bytes && r == ParseText(d, text)
  {
    hide FromUtf8, Encode, ParseText;
    if FromUtf8(bytes).Some? {
      FromUtf8Text(bytes);
      var text := FromUtf8(bytes).value;
      assert Encode(text) == bytes;
      TextErrors(d, text);
    }
  }

  lemma TextErrors(d: Dialect, text: string)
    ensures ParseText(d, text) != Err(TooLarge) && ParseText(d, text) != Err(NotUtf8)
  {
    hide ParseText, LineError, Reads, Clean, Split;
    ParseMeans(d, text);
  }

  // ---------- The flag ----------

  lemma {:induction false} TrimOfTrimEnd(d: Dialect, s: string)
    ensures Trim(d, TrimEnd(d, s)) == Trim(d, s)
  {
    hide IsSpace, TrimStart;
    if s != "" && IsSpace(d, s[|s| - 1]) {
      var t := s[..|s| - 1];
      TrimOfTrimEnd(d, t);
      TrimStartSnoc(d, t, s[|s| - 1]);
      assert s == t + [s[|s| - 1]];
    }
  }

  /** Two lines of a small program, and a flag line with any value. */
  function FlagText(v: string): string {
    "lean-tee-guest-prog/v2" + "\n" + "allow=x" + "\n" + "require_interaction=" + v
  }

  lemma FlagTextLines(v: string)
    ensures FlagText(v) == V2() + ['\n'] + (Key(AllowField) + "x" + ['\n'] + (Key(InteractionField) + v))
  {
    hide Key, V2;
    Keys();
    assert "allow=x" == "allow=" + "x" && V2() == "lean-tee-guest-prog/v2" by { ShortLine(); }
    Regroup(V2() + "\n" + "allow=x", "\n", Key(InteractionField) + v);
    Regroup(V2(), "\n", "allow=x" + ['\n'] + (Key(InteractionField) + v));
  }

  lemma ShortLine()
    ensures "allow=x" == "allow=" + "x" && V2() == "lean-tee-guest-prog/v2"
  {
  }

  lemma FlagLines(d: Dialect, v: string)
    requires Free(v, '\n')
    ensures Clean(d, Split(FlagText(v), '\n')) == [V2(), Key(AllowField) + "x", Key(InteractionField) + TrimEnd(d, v)]
  {
    hide Split, Clean, Trim, TrimEnd, IsSpace, Trimmed, Free, V2, Key, FlagText;
    var first, second, third := V2(), Key(AllowField) + "x", Key(InteractionField) + v;
    FlagTextLines(v);
    VersionFacts(d);
    ShortTexts(d);
    LineOf(d, AllowField, "x");
    KeyFacts(d, AllowField);
    KeyFacts(d, InteractionField);
    FreeAppend3(Key(InteractionField), "", v, '\n');
    assert Key(InteractionField) + "" == Key(InteractionField);
    SplitAtSeparator(first, '\n', second + ['\n'] + third);
    SplitAtSeparator(second, '\n', third);
    SplitFree(third, '\n');
    CleanFixed(d, [first, second]);
    TrimEndAfter(d, Key(InteractionField), v);
    CleanMeans(d, [first, second], third, []);
    assert Trim(d, third) != "";
    assert Split(FlagText(v), '\n') == [first, second] + [third] + [];
    CleanNothing(d);
  }

  lemma CleanNothing(d: Dialect)
    ensures Clean(d, []) == []
  {
  }

  lemma FlagValue(d: Dialect, v: string)
    requires d.Lean? ==> NoOccurrence(v, Key(InteractionField))
    ensures Value(d, InteractionField, Key(InteractionField) + TrimEnd(d, v)) == TrimEnd(d, v)
  {
    hide Key, Before, TrimEnd, NoOccurrence;
    var line := Key(InteractionField) + TrimEnd(d, v);
    assert line[|Key(InteractionField)|..] == TrimEnd(d, v);
    if d == Lean {
      var j := TrimEndSlice(d, v);
      SliceIntro(v, 0, j);
      OccurrenceInSlice(TrimEnd(d, v), v, Key(InteractionField));
      PlainValue(d, InteractionField, TrimEnd(d, v));
    }
  }

  /** A version 2 program with one action and one flag line: it is accepted exactly when the trimmed value is one of the six
      words, and requires an interaction exactly when it is one of the three yes-words. */
  lemma FlagProgram(d: Dialect, v: string)
    requires Free(v, '\n') && (d.Lean? ==> NoOccurrence(v, "require_interaction="))
    ensures
      var w := Trim(d, v);
      ParseText(d, FlagText(v)) ==
        if w == "true" || w == "1" || w == "yes" then Ok(Program("", ["x"], [], true, None))
        else if w == "false" || w == "0" || w == "no" then Ok(Program("", ["x"], [], false, None))
        else Err(BadBool)
  {
    hide Key, V1, V2, Split, Clean, Lines, Trim, TrimEnd, ApplyAll, Value, NoOccurrence, FlagText, Apply;
    Keys();
    var p, line := Program("", ["x"], [], false, None), Key(InteractionField) + TrimEnd(d, v);
    CleanLines(d, FlagText(v));
    FlagLines(d, v);
    VersionFacts(d);
    ShortTexts(d);
    ReadAllowLine(d, EMPTY, p);
    assert AllowLine(p) == Key(AllowField) + "x";
    ApplyAllAppend(d, EMPTY, [AllowLine(p)], [line]);
    assert [V2(), AllowLine(p), line][1..] == [AllowLine(p)] + [line];
    ApplyOne(d, p, line);
    FlagValue(d, v);
    TrimOfTrimEnd(d, v);
    FlagMeans(d, p, line);
    WordsDiffer(Trim(d, v));
  }

  // ---------- The wire format ----------

  function MoreText(more: seq<string>): string {
    if more == [] then "" else "\n" + more[0]
  }

  /** One more line, or none. */
  lemma {:induction false} JoinMore(ls: seq<string>, more: seq<string>)
    requires ls != [] && |more| <= 1
    ensures Join(ls + more, '\n') == Join(ls, '\n') + MoreText(more)
  {
    if more == [] {
      assert ls + more == ls;
    } else if |ls| > 1 {
      assert (ls + more)[1..] == ls[1..] + more;
      JoinMore(ls[1..], more);
    } else {
      assert (ls + more)[1..] == more;
    }
  }

  lemma JoinOne(line: string)
    ensures Join([line], '\n') == line
  {
  }

  lemma WireLines(p: Program)
    ensures Serialize(p) == WireVersion(p) + MoreText(NameLines(p)) + MoreText([AllowLine(p)]) + MoreText(DenyLines(p)) +
                            MoreText(InteractionLines(p)) + MoreText(MaxInputLines(p)) + "\n"
  {
    hide Join, NatToDec, Key, WireVersion, AllowLine, MoreText;
    var a := [WireVersion(p)];
    var b := a + NameLines(p);
    var c := b + [AllowLine(p)];
    var e := c + DenyLines(p);
    var f := e + InteractionLines(p);
    JoinOne(WireVersion(p));
    JoinMore(a, NameLines(p));
    JoinMore(b, [AllowLine(p)]);
    JoinMore(c, DenyLines(p));
    JoinMore(e, InteractionLines(p));
    JoinMore(f, MaxInputLines(p));
    assert a + FieldLines(p) == f + MaxInputLines(p);
  }

  lemma KeyHead(f: Field)
    ensures "\n" + Key(f) ==
      match f
      case NameField => "\nname="
      case AllowField => "\nallow="
      case DenyField => "\ndeny="
      case InteractionField => "\nrequire_interaction="
      case MaxInputField => "\nmax_input_bytes="
  {
  }

  lemma Regroup(a: string, b: string, c: string)
    ensures a + (b + c) == a + b + c
  {
  }

  lemma KeyText(f: Field, v: string)
    ensures "\n" + (Key(f) + v) ==
      match f
      case NameField => "\nname=" + v
      case AllowField => "\nallow=" + v
      case DenyField => "\ndeny=" + v
      case InteractionField => "\nrequire_interaction=" + v
      case MaxInputField => "\nmax_input_bytes=" + v
  {
    hide Key;
    KeyHead(f);
    Regroup("\n", Key(f), v);
  }

  /** The printed text of any program, letter by letter. */
  lemma WireFormat(p: Program)
    ensures Serialize(p) ==
      (if p.deny != [] || p.requireInteraction || p.maxInput.Some?
       then "lean-tee-guest-prog/v2" else "lean-tee-guest-prog/v1") +
      (if p.name != "" then "\nname=" + p.name else "") +
      ("\nallow=" + Join(p.allow, ',')) +
      (if p.deny != [] then "\ndeny=" + Join(p.deny, ',') else "") +
      (if p.requireInteraction then "\nrequire_interaction=" + "true" else "") +
      (if p.maxInput.Some? then "\nmax_input_bytes=" + NatToDec(p.maxInput.value) else "") + "\n"
  {
    hide Join, NatToDec, Key, Serialize;
    WireLines(p);
    KeyText(NameField, p.name);
    KeyText(AllowField, Join(p.allow, ','));
    KeyText(DenyField, Join(p.deny, ','));
    KeyText(InteractionField, "true");
    if p.maxInput.Some? {
      KeyText(MaxInputField, NatToDec(p.maxInput.value));
    }
  }
}
