// The guest policy language: LeanTee/GuestProg.lean and its Rust twin host/compliance_lib/src/guest_prog.rs.
// The two parsers differ only in string primitives, so one definition serves both, with the dialect as a parameter.

module GuestProg {
  import opened Bytes
  import opened Wrappers
  import opened Text
  import opened Decimal

  const DEFAULT_MAX_PROGRAM_BYTES: nat := 65536
  const DEFAULT_MAX_INPUT_BYTES: nat := 65536

  datatype Program = Program(
    name: string, allow: seq<string>, deny: seq<string>, requireInteraction: bool, maxInput: Option<nat>)

  const EMPTY: Program := Program("", [], [], false, None)

  // ---------- Vocabulary ----------

  datatype Field = NameField | AllowField | DenyField | InteractionField | MaxInputField

  function Key(f: Field): string {
    match f
    case NameField => "name="
    case AllowField => "allow="
    case DenyField => "deny="
    case InteractionField => "require_interaction="
    case MaxInputField => "max_input_bytes="
  }

  function V1(): string { "lean-tee-guest-prog/v1" }

  function V2(): string { "lean-tee-guest-prog/v2" }

  /** The field a line sets: the keys are tried in the order of the source. */
  function FieldOf(line: string): Option<Field> {
    if Key(NameField) <= line then Some(NameField)
    else if Key(AllowField) <= line then Some(AllowField)
    else if Key(DenyField) <= line then Some(DenyField)
    else if Key(InteractionField) <= line then Some(InteractionField)
    else if Key(MaxInputField) <= line then Some(MaxInputField)
    else None
  }

  lemma FieldOfKey(f: Field, v: string)
    ensures FieldOf(Key(f) + v) == Some(f)
  {
    var line := Key(f) + v;
    assert line[0] == Key(f)[0];
    assert Key(f) <= line;
  }

  lemma FieldOfPrefix(line: string)
    ensures FieldOf(line).Some? ==> Key(FieldOf(line).value) <= line
  {
    hide Key;
  }

  lemma KeyFacts(d: Dialect, f: Field)
    ensures Key(f) != "" && Free(Key(f), '\n') && Free(Key(f), ',')
    ensures !IsSpace(d, Key(f)[0]) && !IsSpace(d, Key(f)[|Key(f)| - 1])
  {
    hide Key, IsSpace;
    KeyFree(f, '\n');
    KeyFree(f, ',');
    KeyEnds(f);
    SpaceIsNotKeyEnd(d);
  }

  lemma KeyFree(f: Field, c: char)
    requires c == '\n' || c == ','
    ensures Free(Key(f), c)
  {
  }

  lemma KeyEnds(f: Field)
    ensures Key(f) != "" && Key(f)[|Key(f)| - 1] == '='
    ensures Key(f)[0] in "nadrm"
  {
  }

  lemma SpaceIsNotKeyEnd(d: Dialect)
    ensures !IsSpace(d, '=') && forall c :: c in "nadrm" ==> !IsSpace(d, c)
  {
  }

  lemma VersionFacts(d: Dialect)
    ensures V1() != V2() && V1() != "" && V2() != ""
    ensures Free(V1(), '\n') && Free(V2(), '\n')
    ensures Trimmed(d, V1()) && Trimmed(d, V2())
  {
    assert V1()[21] != V2()[21];
  }

  lemma {:induction false} AsciiSize(s: string)
    requires forall i :: 0 <= i < |s| ==> s[i] as int < 0x80
    ensures Size(s) == |s|
  {
    hide EncodeChar;
    if s != "" {
      SizeOfAscii(s[0]);
      AsciiSize(s[1..]);
      assert s == [s[0]] + s[1..];
      EncodeAppend([s[0]], s[1..]);
    }
  }

  lemma KeySize(f: Field)
    ensures Size(Key(f)) == |Key(f)|
  {
    hide Size;
    AsciiSize(Key(f));
  }

  lemma VersionSizes()
    ensures Size(V1()) == Size(V2()) == 22
  {
    hide Size;
    AsciiSize(V1());
    AsciiSize(V2());
  }

  // ---------- Printing ----------

  predicate Extended(p: Program) {
    p.deny != [] || p.requireInteraction || p.maxInput.Some?
  }

  function WireVersion(p: Program): string {
    if Extended(p) then V2() else V1()
  }

  function NameLines(p: Program): seq<string> {
    if p.name == "" then [] else [Key(NameField) + p.name]
  }

  function AllowLine(p: Program): string {
    Key(AllowField) + Join(p.allow, ',')
  }

  function DenyLines(p: Program): seq<string> {
    if p.deny == [] then [] else [Key(DenyField) + Join(p.deny, ',')]
  }

  function InteractionLines(p: Program): seq<string> {
    if p.requireInteraction then [Key(InteractionField) + "true"] else []
  }

  function MaxInputLines(p: Program): seq<string> {
    if p.maxInput.Some? then [Key(MaxInputField) + NatToDec(p.maxInput.value)] else []
  }

  function FieldLines(p: Program): seq<string> {
    NameLines(p) + [AllowLine(p)] + DenyLines(p) + InteractionLines(p) + MaxInputLines(p)
  }

  /** `Program::serialize` and `Program.serialize`, as text. */
  function Serialize(p: Program): string {
    Join([WireVersion(p)] + FieldLines(p), '\n') + "\n"
  }

  lemma SerializeMeans(p: Program)
    ensures Serialize(p) == Join([WireVersion(p)] + FieldLines(p), '\n') + "\n"
  {
  }

  /** The method form: lines are pushed one after the other. */
  method SerializeLines(p: Program) returns (text: string)
    ensures text == Serialize(p)
  {
    hide Key, Join, NatToDec, WireVersion, Serialize;
    var lines := [WireVersion(p)];
    if p.name != "" {
      lines := lines + [Key(NameField) + p.name];
    }
    lines := lines + [Key(AllowField) + Join(p.allow, ',')];
    if p.deny != [] {
      lines := lines + [Key(DenyField) + Join(p.deny, ',')];
    }
    if p.requireInteraction {
      lines := lines + [Key(InteractionField) + "true"];
    }
    if p.maxInput.Some? {
      lines := lines + [Key(MaxInputField) + NatToDec(p.maxInput.value)];
    }
    assert lines == [WireVersion(p)] + FieldLines(p);
    SerializeMeans(p);
    return Join(lines, '\n') + "\n";
  }

  // ---------- Parsing ----------

  datatype Error = TooLarge | NotUtf8 | NoLines | BadVersion | BadBool | BadNumber | BadLine | EmptyAllow | V1Extended

  /** The text after the key: Rust strips the key, Lean takes the piece up to the key's next occurrence. */
  function Value(d: Dialect, f: Field, line: string): string
    requires Key(f) <= line
  {
    var rest := line[|Key(f)|..];
    match d
    case Rust => rest
    case Lean =>
      KeyFacts(d, f);
      Before(rest, Key(f))
  }

  function Entries(d: Dialect, v: string): seq<string> {
    Clean(d, Split(v, ','))
  }

  function ParseBool(d: Dialect, v: string): Option<bool> {
    var t := Trim(d, v);
    if t == "true" || t == "1" || t == "yes" then Some(true)
    else if t == "false" || t == "0" || t == "no" then Some(false)
    else None
  }

  function ParseNumber(d: Dialect, v: string): Option<nat> {
    match d
    case Rust => ParseUsize(Trim(d, v))
    case Lean => ParseNatDec(Trim(d, v))
  }

  /** What one line does to the fields read so far. */
  function Apply(d: Dialect, p: Program, line: string): Result<Program, Error> {
    FieldOfPrefix(line);
    match FieldOf(line)
    case Some(NameField) => Ok(p.(name := Value(d, NameField, line)))
    case Some(AllowField) => Ok(p.(allow := Entries(d, Value(d, AllowField, line))))
    case Some(DenyField) => Ok(p.(deny := Entries(d, Value(d, DenyField, line))))
    case Some(InteractionField) =>
      (match ParseBool(d, Value(d, InteractionField, line))
       case Some(b) => Ok(p.(requireInteraction := b))
       case None => Err(BadBool))
    case Some(MaxInputField) =>
      (match ParseNumber(d, Value(d, MaxInputField, line))
       case Some(n) => Ok(p.(maxInput := Some(n)))
       case None => Err(BadNumber))
    case None => if line != "" && line[0] == '#' then Ok(p) else Err(BadLine)
  }

  function ApplyAll(d: Dialect, p: Program, lines: seq<string>): Result<Program, Error>
    decreases lines
  {
    if lines == [] then Ok(p)
    else
      match Apply(d, p, lines[0])
      case Ok(q) => ApplyAll(d, q, lines[1..])
      case Err(e) => Err(e)
  }

  function Finish(version: string, r: Result<Program, Error>): Result<Program, Error> {
    match r
    case Err(e) => Err(e)
    case Ok(p) =>
      if p.allow == [] then Err(EmptyAllow)
      else if version == V1() && Extended(p) then Err(V1Extended)
      else Ok(p)
  }

  function ParseLines(d: Dialect, lines: seq<string>): Result<Program, Error> {
    if lines == [] then Err(NoLines)
    else if lines[0] != V1() && lines[0] != V2() then Err(BadVersion)
    else Finish(lines[0], ApplyAll(d, EMPTY, lines[1..]))
  }

  function ParseText(d: Dialect, text: string): Result<Program, Error> {
    ParseLines(d, Clean(d, Lines(d, text)))
  }

  /** `parse_with_limit` and `parse`. */
  function Parse(d: Dialect, bytes: seq<byte>, limit: nat): Result<Program, Error> {
    if |bytes| > limit then Err(TooLarge)
    else
      match FromUtf8(bytes)
      case None => Err(NotUtf8)
      case Some(text) => ParseText(d, text)
  }

  /** The loop of `parse_with_limit` and `parse` over the lines, with its five variables. */
  method ParseLoop(d: Dialect, text: string) returns (r: Result<Program, Error>)
    ensures r == ParseText(d, text)
  {
    hide Key, V1, V2, Clean, Lines, Value, Entries, ParseBool, ParseNumber, FieldOf;
    var lines := Clean(d, Lines(d, text));
    if lines == [] {
      return Err(NoLines);
    }
    var version := lines[0];
    if version != V1() && version != V2() {
      return Err(BadVersion);
    }
    var name, allow, deny, requireInteraction := "", [], [], false;
    var maxInput: Option<nat> := None;
    var i := 1;
    while i < |lines|
      invariant 1 <= i <= |lines|
      invariant ApplyAll(d, EMPTY, lines[1..])
             == ApplyAll(d, Program(name, allow, deny, requireInteraction, maxInput), lines[i..])
    {
      var line := lines[i];
      assert lines[i..][0] == line && lines[i..][1..] == lines[i + 1..];
      FieldOfPrefix(line);
      var field := FieldOf(line);
      if field == Some(NameField) {
        name := Value(d, NameField, line);
      } else if field == Some(AllowField) {
        allow := Entries(d, Value(d, AllowField, line));
      } else if field == Some(DenyField) {
        deny := Entries(d, Value(d, DenyField, line));
      } else if field == Some(InteractionField) {
        var b := ParseBool(d, Value(d, InteractionField, line));
        if b == None {
          return Err(BadBool);
        }
        requireInteraction := b.value;
      } else if field == Some(MaxInputField) {
        var n := ParseNumber(d, Value(d, MaxInputField, line));
        if n == None {
          return Err(BadNumber);
        }
        maxInput := n;
      } else if !(line != "" && line[0] == '#') {
        return Err(BadLine);
      }
      i := i + 1;
    }
    if allow == [] {
      return Err(EmptyAllow);
    }
    var p := Program(name, allow, deny, requireInteraction, maxInput);
    if version == V1() && (deny != [] || requireInteraction || maxInput.Some?) {
      return Err(V1Extended);
    }
    return Ok(p);
  }

  lemma {:induction false} ApplyAllAppend(d: Dialect, p: Program, a: seq<string>, b: seq<string>)
    ensures ApplyAll(d, p, a + b) ==
      match ApplyAll(d, p, a) { case Ok(q) => ApplyAll(d, q, b) case Err(e) => Err(e) }
    decreases a
  {
    hide Apply;
    if a == [] {
      assert a + b == b;
    } else {
      assert (a + b)[1..] == a[1..] + b;
      if Apply(d, p, a[0]).Ok? {
        ApplyAllAppend(d, Apply(d, p, a[0]).value, a[1..], b);
      }
    }
  }
}
