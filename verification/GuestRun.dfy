// Running a guest: GuestProg programs, the built-in registry guests, and the measured entry point that chooses between
// them, in Lean (LeanTee/GuestProg.lean, Guests/Registry.lean, GuestSp1.lean) and in Rust (guest_prog.rs, guests.rs).

module GuestRun {
  import opened Bytes
  import opened Wrappers
  import opened Text
  import opened Framing
  import opened Hex
  import opened GuestProg
  import opened GuestProgLaws

  // ---------- Decisions ----------

  function Action(a: string): string {
    "action=" + a
  }

  predicate AnyPrefix(names: seq<string>, text: string) {
    exists k :: 0 <= k < |names| && Action(names[k]) <= text
  }

  /** Bytes that are not UTF-8 read as the empty text. */
  function InputText(inputs: bytes): string {
    match FromUtf8(inputs)
    case Some(s) => s
    case None => ""
  }

  predicate AnyInteraction(d: Dialect, lines: seq<string>) {
    lines != [] && ("interaction=" <= Trim(d, lines[0]) || AnyInteraction(d, lines[1..]))
  }

  predicate HasInteraction(d: Dialect, text: string) {
    AnyInteraction(d, Lines(d, text))
  }

  function Cap(p: Program): nat {
    match p.maxInput
    case Some(n) => n
    case None => DEFAULT_MAX_INPUT_BYTES
  }

  /** The decision chain of `run`. */
  predicate Allowed(d: Dialect, p: Program, inputs: bytes) {
    var text := InputText(inputs);
    if |inputs| > Cap(p) then false
    else if p.requireInteraction && !HasInteraction(d, text) then false
    else if AnyPrefix(p.deny, text) then false
    else AnyPrefix(p.allow, text)
  }

  /** The two output lines: the decision, and the hash that binds the configuration and the inputs. */
  function Report(sha: Digest, allowed: bool, config: bytes, inputs: bytes): bytes {
    Encode((if allowed then "decision=allow" else "decision=deny") +
           "\nreason=" + HexEncode(sha(Concat([config, inputs]))) + "\n")
  }

  function Run(d: Dialect, sha: Digest, p: Program, inputs: bytes): bytes {
    Report(sha, Allowed(d, p, inputs), sha(Encode(Serialize(p))), inputs)
  }

  function RunBytes(d: Dialect, sha: Digest, program: bytes, inputs: bytes, limit: nat): Result<bytes, Error> {
    match Parse(d, program, limit)
    case Err(e) => Err(e)
    case Ok(p) => Ok(Run(d, sha, p, inputs))
  }

  /** Running a text and running its normal form give the same output on every input. */
  lemma NormalFormRuns(sha: Digest, program: bytes, inputs: bytes, limit: nat, roomy: nat)
    requires Parse(Rust, program, limit).Ok? && |program| + 4 <= roomy
    ensures
      var normal := Encode(Serialize(Parse(Rust, program, limit).value));
      RunBytes(Rust, sha, normal, inputs, roomy) == RunBytes(Rust, sha, program, inputs, limit)
  {
    hide Parse, Serialize, Encode, Run;
    NormalForm(program, limit, roomy);
  }

  /** One program is at least as strict as another. */
  predicate Tighter(p: Program, q: Program) {
    && (forall a :: a in p.allow ==> a in q.allow)
    && (forall a :: a in q.deny ==> a in p.deny)
    && (q.requireInteraction ==> p.requireInteraction)
    && Cap(p) <= Cap(q)
  }

  lemma AnyPrefixGrows(a: seq<string>, b: seq<string>, text: string)
    requires forall x :: x in a ==> x in b
    ensures AnyPrefix(a, text) ==> AnyPrefix(b, text)
  {
    hide Action;
    if AnyPrefix(a, text) {
      var k :| 0 <= k < |a| && Action(a[k]) <= text;
      assert a[k] in b;
    }
  }

  /** Tightening a policy never turns a denial into a grant. */
  lemma TighteningNeverGrants(d: Dialect, p: Program, q: Program, inputs: bytes)
    requires Tighter(p, q) && Allowed(d, p, inputs)
    ensures Allowed(d, q, inputs)
  {
    hide HasInteraction, AnyPrefix;
    AnyPrefixGrows(p.allow, q.allow, InputText(inputs));
    AnyPrefixGrows(q.deny, p.deny, InputText(inputs));
  }

  /** The decision can be read off the report. */
  lemma ReportShowsDecision(sha: Digest, a: bool, config: bytes, inputs: bytes, b: bool, config': bytes, inputs': bytes)
    requires Report(sha, a, config, inputs) == Report(sha, b, config', inputs')
    ensures a == b
  {
    hide Encode, HexEncode, Concat;
    var s := (if a then "decision=allow" else "decision=deny") +
             "\nreason=" + HexEncode(sha(Concat([config, inputs]))) + "\n";
    var t := (if b then "decision=allow" else "decision=deny") +
             "\nreason=" + HexEncode(sha(Concat([config', inputs']))) + "\n";
    EncodeInjective(s, t);
    assert s[9] == (if a then 'a' else 'd') && t[9] == (if b then 'a' else 'd');
  }

  /** The reason can be read off too. */
  lemma ReportShowsReason(
      sha: Digest, a: bool, config: bytes, inputs: bytes, b: bool, config': bytes, inputs': bytes)
    requires Report(sha, a, config, inputs) == Report(sha, b, config', inputs')
    ensures sha(Concat([config, inputs])) == sha(Concat([config', inputs']))
  {
    hide Encode, HexEncode, Concat;
    var h, h' := HexEncode(sha(Concat([config, inputs]))), HexEncode(sha(Concat([config', inputs'])));
    var x, y := if a then "decision=allow" else "decision=deny", if b then "decision=allow" else "decision=deny";
    ReportShowsDecision(sha, a, config, inputs, b, config', inputs');
    EncodeInjective(x + "\nreason=" + h + "\n", y + "\nreason=" + h' + "\n");
    SameMiddle(x + "\nreason=", h, y + "\nreason=", h', "\n");
    HexInjective(sha(Concat([config, inputs])), sha(Concat([config', inputs'])));
  }

  /** Equal reports on one input bind equal configurations, or two preimages collide. */
  lemma ReportShowsConfig(sha: Digest, a: bool, config: bytes, b: bool, config': bytes, inputs: bytes)
    requires Report(sha, a, config, inputs) == Report(sha, b, config', inputs) && |config| == |config'|
    ensures config == config' || Collision(sha, Concat([config, inputs]), Concat([config', inputs]))
  {
    hide Report, Concat;
    ReportShowsReason(sha, a, config, inputs, b, config', inputs);
    FirstChunk(config, inputs);
    FirstChunk(config', inputs);
  }

  lemma FirstChunk(a: bytes, x: bytes)
    ensures |Concat([a, x])| >= 4 + |a| && Concat([a, x])[4..4 + |a|] == a
  {
    hide BigEndian;
    assert Concat([a, x]) == BigEndian(|a|, 4) + a + Concat([a, x][1..]);
  }

  /** A report is none of the fixed denials: it continues with a hexadecimal digit. */
  lemma ReportIsNotFixed(sha: Digest, allowed: bool, config: bytes, inputs: bytes, reason: string)
    requires Results32(sha) && reason != "" && HexVal(reason[0]) == None
    ensures Report(sha, allowed, config, inputs) != Encode("decision=deny\nreason=" + reason + "\n")
  {
    hide Encode, Concat, HexEncode, HexVal;
    var hex := HexEncode(sha(Concat([config, inputs])));
    var s := (if allowed then "decision=allow" else "decision=deny") + "\nreason=" + hex + "\n";
    var t := "decision=deny\nreason=" + reason + "\n";
    assert |sha(Concat([config, inputs]))| == 32;
    FirstHexDigit(sha(Concat([config, inputs])));
    assert s != t by {
      if allowed {
        assert s[9] == 'a' && t[9] == 'd';
      } else {
        assert s[21] == hex[0] && t[21] == reason[0];
      }
    }
    if Encode(s) == Encode(t) {
      EncodeInjective(s, t);
    }
  }

  lemma FirstHexDigit(b: bytes)
    requires b != []
    ensures HexEncode(b) != "" && HexVal(HexEncode(b)[0]).Some?
  {
  }

  // ---------- The output binds the program ----------

  /** The two preimages at which runs of two programs on one input could be confused. */
  predicate RunsCollide(sha: Digest, p: Program, q: Program, inputs: bytes) {
    var x, y := Encode(Serialize(p)), Encode(Serialize(q));
    Collision(sha, x, y) || Collision(sha, Concat([sha(x), inputs]), Concat([sha(y), inputs]))
  }

  /** The configuration hash binds the program, across the two languages. */
  lemma ConfigHashBinds(sha: Digest, d: Dialect, p: Program, e: Dialect, q: Program)
    requires WellShaped(d, p) && WellShaped(e, q) && p.allow != [] && q.allow != []
    requires sha(Encode(Serialize(p))) == sha(Encode(Serialize(q)))
    ensures p == q || Collision(sha, Encode(Serialize(p)), Encode(Serialize(q)))
  {
    hide Encode, Serialize, WellShaped;
    if Encode(Serialize(p)) == Encode(Serialize(q)) {
      EncodeInjective(Serialize(p), Serialize(q));
      SerializeInjective(d, p, e, q);
    }
  }

  /** So does the output of a run: two programs with one output on one input are the same, or two preimages collide. */
  lemma OutputBindsProgram(sha: Digest, d: Dialect, p: Program, e: Dialect, q: Program, inputs: bytes)
    requires Results32(sha)
    requires WellShaped(d, p) && WellShaped(e, q) && p.allow != [] && q.allow != []
    requires Run(d, sha, p, inputs) == Run(e, sha, q, inputs)
    ensures p == q || RunsCollide(sha, p, q, inputs)
  {
    hide Encode, Serialize, WellShaped, Report, Allowed, Concat;
    var x, y := sha(Encode(Serialize(p))), sha(Encode(Serialize(q)));
    assert |x| == 32 && |y| == 32;
    ReportShowsConfig(sha, Allowed(d, p, inputs), x, Allowed(e, q, inputs), y, inputs);
    if x == y {
      ConfigHashBinds(sha, d, p, e, q);
    }
  }

  // ---------- The two runners ----------

  lemma TrimTwice(d: Dialect, s: string)
    ensures Trim(d, Trim(d, s)) == Trim(d, s)
  {
    hide Trim, Trimmed;
    var _, _ := TrimSlice(d, s);
    TrimFixed(d, Trim(d, s));
  }

  lemma {:induction false} InteractionInClean(d: Dialect, ps: seq<string>)
    ensures AnyInteraction(d, Clean(d, ps)) == AnyInteraction(d, ps)
  {
    hide Trim;
    if ps != [] {
      InteractionInClean(d, ps[1..]);
      TrimTwice(d, ps[0]);
      var t := Trim(d, ps[0]);
      var rest := Clean(d, ps[1..]);
      if t == "" {
        assert [] + rest == rest;
      } else {
        assert Clean(d, ps)[1..] == rest;
      }
    }
  }

  lemma {:induction false} AnyInteractionAgrees(ls: seq<string>)
    requires forall k :: 0 <= k < |ls| ==> Plain(ls[k])
    ensures AnyInteraction(Rust, ls) == AnyInteraction(Lean, ls)
  {
    hide Trim, Plain;
    if ls != [] {
      TrimAgrees(ls[0]);
      AnyInteractionAgrees(ls[1..]);
    }
  }

  lemma InteractionAgrees(text: string)
    requires Plain(text)
    ensures HasInteraction(Rust, text) == HasInteraction(Lean, text)
  {
    hide Clean, Lines, Plain, AnyInteraction;
    InteractionInClean(Rust, Lines(Rust, text));
    InteractionInClean(Lean, Lines(Lean, text));
    CleanedLinesAgree(text);
    AnyInteractionAgrees(Clean(Rust, Lines(Rust, text)));
  }

  /** A line that is blanks of the dialect followed by `interaction=`. */
  predicate GateLine(d: Dialect, line: string) {
    exists j :: 0 <= j <= |line| && BlankUpTo(d, line, j) && "interaction=" <= line[j..]
  }

  predicate BlankUpTo(d: Dialect, s: string, j: nat)
    requires j <= |s|
  {
    forall i :: 0 <= i < j ==> IsSpace(d, s[i])
  }

  lemma {:induction false} TrimmedGateLine(d: Dialect, line: string)
    ensures "interaction=" <= Trim(d, line) <==> GateLine(d, line)
  {
    hide IsSpace, TrimEnd;
    var key := "interaction=";
    InteractionKeyEnds(d);
    if line != "" && IsSpace(d, line[0]) {
      TrimmedGateLine(d, line[1..]);
      GateLineTail(d, line);
    } else {
      GateLineHere(d, line);
      assert Trim(d, line) == TrimEnd(d, line);
      if key <= line {
        assert line == key + line[|key|..];
        TrimEndAfter(d, key, line[|key|..]);
      } else {
        var j := TrimEndSlice(d, line);
        assert key <= line[..j] ==> key <= line;
      }
    }
  }

  lemma BlankShift(d: Dialect, s: string, j: nat)
    requires s != "" && IsSpace(d, s[0]) && j < |s|
    ensures BlankUpTo(d, s, j + 1) <==> BlankUpTo(d, s[1..], j)
  {
    hide IsSpace;
    var t := s[1..];
    if BlankUpTo(d, t, j) {
      forall i | 0 <= i < j + 1
        ensures IsSpace(d, s[i])
      {
        assert i > 0 ==> s[i] == t[i - 1];
      }
    }
    if BlankUpTo(d, s, j + 1) {
      forall i | 0 <= i < j
        ensures IsSpace(d, t[i])
      {
        assert t[i] == s[i + 1];
      }
    }
  }

  lemma GateLineTail(d: Dialect, line: string)
    requires line != "" && IsSpace(d, line[0])
    ensures GateLine(d, line) <==> GateLine(d, line[1..])
  {
    hide IsSpace, BlankUpTo;
    var key, tail := "interaction=", line[1..];
    InteractionKeyEnds(d);
    if GateLine(d, line) {
      var j :| 0 <= j <= |line| && BlankUpTo(d, line, j) && key <= line[j..];
      assert key[0] == line[j..][0] == line[j];
      assert tail[j - 1..] == line[j..];
      BlankShift(d, line, j - 1);
    }
    if GateLine(d, tail) {
      var j :| 0 <= j <= |tail| && BlankUpTo(d, tail, j) && key <= tail[j..];
      assert tail[j..] == line[j + 1..];
      BlankShift(d, line, j);
    }
  }

  lemma GateLineHere(d: Dialect, line: string)
    requires line == "" || !IsSpace(d, line[0])
    ensures GateLine(d, line) <==> "interaction=" <= line
  {
    hide IsSpace;
    if "interaction=" <= line {
      assert BlankUpTo(d, line, 0) && line[0..] == line;
    }
  }

  lemma {:induction false} AnyGateLine(d: Dialect, ls: seq<string>)
    ensures AnyInteraction(d, ls) <==> exists k :: 0 <= k < |ls| && GateLine(d, ls[k])
  {
    hide Trim, GateLine;
    if ls != [] {
      TrimmedGateLine(d, ls[0]);
      AnyGateLine(d, ls[1..]);
      assert forall k :: 0 <= k < |ls[1..]| ==> ls[1..][k] == ls[k + 1];
      assert (exists k :: 0 <= k < |ls| && GateLine(d, ls[k])) <==>
             (GateLine(d, ls[0]) || exists k :: 0 <= k < |ls[1..]| && GateLine(d, ls[1..][k])) by {
        if GateLine(d, ls[0]) || exists k :: 0 <= k < |ls[1..]| && GateLine(d, ls[1..][k]) {
          if !GateLine(d, ls[0]) {
            var k :| 0 <= k < |ls[1..]| && GateLine(d, ls[1..][k]);
            assert GateLine(d, ls[k + 1]);
          }
        }
        if exists k :: 0 <= k < |ls| && GateLine(d, ls[k]) {
          var k :| 0 <= k < |ls| && GateLine(d, ls[k]);
          if k > 0 {
            assert GateLine(d, ls[1..][k - 1]);
          }
        }
      }
    }
  }

  /** The gate in terms a caller can check: some line is blanks and then the key. */
  lemma GateMeans(d: Dialect, text: string)
    ensures HasInteraction(d, text) <==>
            exists k :: 0 <= k < |Split(text, '\n')| && GateLine(d, Split(text, '\n')[k])
  {
    hide Split, AnyInteraction, HasInteraction, GateLine;
    GateOfLines(d, text);
    AnyGateLine(d, Split(text, '\n'));
  }

  /** Lean's gate is the stricter one. */
  lemma LeanGateIsStricter(text: string)
    ensures HasInteraction(Lean, text) ==> HasInteraction(Rust, text)
  {
    hide Split, HasInteraction, GateLine;
    GateMeans(Lean, text);
    GateMeans(Rust, text);
    if HasInteraction(Lean, text) {
      var k :| 0 <= k < |Split(text, '\n')| && GateLine(Lean, Split(text, '\n')[k]);
      GateLineWider(Split(text, '\n')[k]);
    }
  }

  lemma GateLineWider(line: string)
    ensures GateLine(Lean, line) ==> GateLine(Rust, line)
  {
    hide IsSpace;
    if GateLine(Lean, line) {
      var j :| 0 <= j <= |line| && BlankUpTo(Lean, line, j) && "interaction=" <= line[j..];
      forall i | 0 <= i < j
        ensures IsSpace(Rust, line[i])
      {
        LeanSpaceIsRustSpace(line[i]);
      }
      assert BlankUpTo(Rust, line, j);
    }
  }

  /** The inputs on which the two interpreters part: the program would allow them, it requires an interaction, and Rust
      sees one where Lean does not. */
  predicate GateSplits(p: Program, inputs: bytes) {
    var text := InputText(inputs);
    p.requireInteraction && |inputs| <= Cap(p) && HasInteraction(Rust, text) && !HasInteraction(Lean, text) &&
    !AnyPrefix(p.deny, text) && AnyPrefix(p.allow, text)
  }

  /** The two interpreters give the same output on exactly the other inputs. */
  lemma RunnersAgree(sha: Digest, p: Program, inputs: bytes)
    ensures Run(Rust, sha, p, inputs) == Run(Lean, sha, p, inputs) <==> !GateSplits(p, inputs)
  {
    hide HasInteraction, Report, Serialize, AnyPrefix, InputText, Encode;
    LeanGateIsStricter(InputText(inputs));
    var config := sha(Encode(Serialize(p)));
    if Run(Rust, sha, p, inputs) == Run(Lean, sha, p, inputs) {
      ReportShowsDecision(sha, Allowed(Rust, p, inputs), config, inputs, Allowed(Lean, p, inputs), config, inputs);
    }
  }

  /** In particular on all inputs with plain white space. */
  lemma PlainInputsAgree(p: Program, inputs: bytes)
    requires Plain(InputText(inputs))
    ensures !GateSplits(p, inputs)
  {
    hide Plain, HasInteraction, AnyPrefix, InputText;
    InteractionAgrees(InputText(inputs));
  }

  lemma NoBreakSpaceLine()
    ensures GateLine(Rust, "\U{A0}interaction=") && !GateLine(Lean, "\U{A0}interaction=")
  {
    var line, key := "\U{A0}interaction=", "interaction=";
    assert line[1..] == key;
    assert BlankUpTo(Rust, line, 1);
    GateLineHere(Lean, line);
    assert line[0] != key[0];
  }

  /** A program and an input on which the outputs differ: a no-break space before `interaction=`. */
  lemma RunnersDifferExample(sha: Digest)
    ensures
      var p := Program("", ["x"], [], true, None);
      var inputs := Encode("action=x\n\U{A0}interaction=");
      Run(Rust, sha, p, inputs) != Run(Lean, sha, p, inputs)
  {
    hide Encode, HasInteraction, Split, GateLine, Run, InputText, FromUtf8;
    var p := Program("", ["x"], [], true, None);
    var first, line := "action=x", "\U{A0}interaction=";
    var text := "action=x\n\U{A0}interaction=";
    assert text == first + ['\n'] + line;
    SplitAtSeparator(first, '\n', line);
    SplitFree(line, '\n');
    var ls := Split(text, '\n');
    assert ls == [first, line];
    NoBreakSpaceLine();
    GateMeans(Rust, text);
    GateMeans(Lean, text);
    assert GateLine(Rust, ls[1]);
    assert !GateLine(Lean, ls[0]) by { ActionIsNoGateLine(); }
    FromUtf8OfEncode(text);
    assert InputText(Encode(text)) == text by { InputTextOfEncode(text); }
    EncodeBound(text);
    assert Action(p.allow[0]) <= text;
    RunnersAgree(sha, p, Encode(text));
  }

  lemma ActionIsNoGateLine()
    ensures !GateLine(Lean, "action=x")
  {
    GateLineHere(Lean, "action=x");
    assert "action=x"[0] != "interaction="[0];
  }

  lemma InputTextOfEncode(text: string)
    ensures InputText(Encode(text)) == text
  {
    hide Encode, FromUtf8;
    FromUtf8OfEncode(text);
  }

  // ---------- Inputs bound to an interaction ----------

  /** `bind_interaction`: the action, the interaction and a payload that ends its last line. */
  function Bound(action: string, interaction: string, payload: string): string {
    "action=" + action + "\ninteraction=" + interaction + "\n" +
    (if payload == "" || payload[|payload| - 1] == '\n' then payload else payload + "\n")
  }

  /** Bound inputs are the two lines and the payload as it is, and they end with a line break. */
  lemma BoundMeans(action: string, interaction: string, payload: string)
    ensures
      var text, head := Bound(action, interaction, payload), "action=" + action + "\ninteraction=" + interaction + "\n";
      (text == head + payload || text == head + payload + "\n") && text[|text| - 1] == '\n' &&
      (payload != "" && payload[|payload| - 1] == '\n' ==> text == head + payload)
  {
  }

  /** The method form: a buffer that grows. */
  method BindInteraction(action: string, interaction: string, payload: string) returns (s: string)
    ensures s == Bound(action, interaction, payload)
  {
    s := "action=" + action + "\ninteraction=" + interaction + "\n";
    if payload != "" {
      s := s + payload;
      if payload[|payload| - 1] != '\n' {
        s := s + "\n";
      }
    }
  }

  /** Only the split lines matter for the gate. */
  lemma GateOfLines(d: Dialect, text: string)
    ensures HasInteraction(d, text) == AnyInteraction(d, Split(text, '\n'))
  {
    hide Clean, Lines, Split, AnyInteraction;
    InteractionInClean(d, Lines(d, text));
    InteractionInClean(d, Split(text, '\n'));
    CleanLines(d, text);
  }

  /** What splitting does with one more character in front. */
  function InFront(c: char, sep: char, ps: seq<string>): seq<string>
    requires ps != []
  {
    if c == sep then [""] + ps else [[c] + ps[0]] + ps[1..]
  }

  lemma SplitInFront(s: string, sep: char)
    requires s != ""
    ensures Split(s, sep) == InFront(s[0], sep, Split(s[1..], sep))
  {
  }

  lemma InFrontAppend(c: char, sep: char, ps: seq<string>, qs: seq<string>)
    requires ps != []
    ensures InFront(c, sep, ps + qs) == InFront(c, sep, ps) + qs
  {
    assert (ps + qs)[1..] == ps[1..] + qs;
  }

  lemma {:induction false} SplitConcat(s: string, sep: char, t: string)
    ensures Split(s + [sep] + t, sep) == Split(s, sep) + Split(t, sep)
  {
    var u := s + [sep] + t;
    if s == "" {
      assert u[1..] == t;
    } else {
      hide Split, InFront;
      assert u[1..] == s[1..] + [sep] + t;
      SplitConcat(s[1..], sep, t);
      SplitInFront(s, sep);
      SplitInFront(u, sep);
      InFrontAppend(s[0], sep, Split(s[1..], sep), Split(t, sep));
    }
  }

  lemma {:induction false} FirstPieceKeeps(k: string, t: string, sep: char)
    requires Free(k, sep)
    ensures k <= Split(k + t, sep)[0]
  {
    if k != "" {
      assert (k + t)[1..] == k[1..] + t;
      FirstPieceKeeps(k[1..], t, sep);
      assert k == [k[0]] + k[1..];
    }
  }

  lemma {:induction false} AnyInteractionAt(d: Dialect, ls: seq<string>, k: nat)
    requires k < |ls| && "interaction=" <= Trim(d, ls[k])
    ensures AnyInteraction(d, ls)
  {
    hide Trim;
    if k > 0 {
      AnyInteractionAt(d, ls[1..], k - 1);
    }
  }

  /** Whatever the action, the interaction and the payload contain, the bound text passes the interaction gate. */
  lemma BoundPassesGate(d: Dialect, action: string, interaction: string, payload: string)
    ensures HasInteraction(d, Bound(action, interaction, payload))
  {
    hide Split, AnyInteraction, Trim, TrimEnd, IsSpace;
    var key, text := "interaction=", Bound(action, interaction, payload);
    var tail := interaction + "\n" +
                (if payload == "" || payload[|payload| - 1] == '\n' then payload else payload + "\n");
    assert text == ("action=" + action) + ['\n'] + (key + tail);
    SplitConcat("action=" + action, '\n', key + tail);
    var before := Split("action=" + action, '\n');
    var line := Split(key + tail, '\n')[0];
    FirstPieceKeeps(key, tail, '\n');
    InteractionKeyEnds(d);
    assert line == key + line[|key|..];
    TrimEndAfter(d, key, line[|key|..]);
    assert Split(text, '\n')[|before|] == line;
    AnyInteractionAt(d, Split(text, '\n'), |before|);
    GateOfLines(d, text);
  }

  lemma InteractionKeyEnds(d: Dialect)
    ensures !IsSpace(d, "interaction="[0]) && !IsSpace(d, "interaction="[11])
  {
  }

  /** So a program's answer to bound inputs depends only on their size and their first line, and the two languages
      agree on it without any condition on white space. */
  lemma BoundDecision(d: Dialect, p: Program, action: string, interaction: string, payload: string)
    ensures
      var text := Bound(action, interaction, payload);
      Allowed(d, p, Encode(text)) <==> Size(text) <= Cap(p) && !AnyPrefix(p.deny, text) && AnyPrefix(p.allow, text)
  {
    hide Encode, Bound, HasInteraction, AnyPrefix, FromUtf8;
    var text := Bound(action, interaction, payload);
    BoundPassesGate(d, action, interaction, payload);
    FromUtf8OfEncode(text);
  }

  lemma BoundRunsAgree(sha: Digest, p: Program, action: string, interaction: string, payload: string)
    ensures
      var inputs := Encode(Bound(action, interaction, payload));
      Run(Rust, sha, p, inputs) == Run(Lean, sha, p, inputs)
  {
    hide Encode, Bound, Allowed, Report, AnyPrefix;
    BoundDecision(Rust, p, action, interaction, payload);
    BoundDecision(Lean, p, action, interaction, payload);
  }

  // ---------- Registry guests ----------

  datatype Guest = Guest(guestId: string, codeId: string, actions: seq<string>)

  function Builtin(): seq<Guest> {
    [Guest("compliance_operator", "lean-tee/compliance_operator/lean-sp1/v1",
           ["vote.yes", "vote.no", "supplier.register", "purchaser.approve", "purchaser.reject", "trade.submit"]),
     Guest("voting_operator", "lean-tee/voting_operator/lean-sp1/v1", ["vote.yes", "vote.no"]),
     Guest("onboarding_operator", "lean-tee/onboarding_operator/lean-sp1/v1",
           ["supplier.register", "purchaser.approve", "purchaser.reject"]),
     Guest("trade_operator", "lean-tee/trade_operator/lean-sp1/v1", ["trade.submit"]),
     Runtime()]
  }

  /** `guest_prog_runtime`. */
  function Runtime(): Guest {
    Guest("guest_prog_runtime", "lean-tee/guest_prog_runtime/lean-sp1/v1", [])
  }

  function CodeHash(sha: Digest, g: Guest): bytes {
    sha(Encode(g.codeId))
  }

  function Prefixed(t: string): string {
    if "action=" <= t then t else Action(t)
  }

  /** The prefixes asked for by the entries of an `allow=` line.  Rust drops what is only "action=" after adding the
      prefix; Lean drops empty entries before. */
  function Asked(d: Dialect, ps: seq<string>): seq<string> {
    if ps == [] then []
    else
      var t := Trim(d, ps[0]);
      var drop := if d == Rust then |Prefixed(t)| <= |"action="| else t == "";
      (if drop then [] else [Prefixed(t)]) + Asked(d, ps[1..])
  }

  /** `parse_allow_prefixes` and `parseAllow?`: the first `allow=` line decides, except that Rust skips one without
      entries. */
  function ParseAllow(d: Dialect, lines: seq<string>): Option<seq<string>> {
    if lines == [] then None
    else
      var t := Trim(d, lines[0]);
      if Key(AllowField) <= t then
        var asked := Asked(d, Split(Value(d, AllowField, t), ','));
        if asked != [] then Some(asked)
        else if d == Rust then ParseAllow(d, lines[1..])
        else None
      else ParseAllow(d, lines[1..])
  }

  /** The loop with its early returns. */
  method ParseAllowLoop(d: Dialect, lines: seq<string>) returns (r: Option<seq<string>>)
    ensures r == ParseAllow(d, lines)
  {
    hide Trim, Key, Asked, Value;
    var i := 0;
    while i < |lines|
      invariant 0 <= i <= |lines|
      invariant ParseAllow(d, lines) == ParseAllow(d, lines[i..])
    {
      var t := Trim(d, lines[i]);
      assert lines[i..][0] == lines[i] && lines[i..][1..] == lines[i + 1..];
      if Key(AllowField) <= t {
        var asked := Asked(d, Split(Value(d, AllowField, t), ','));
        if asked != [] {
          return Some(asked);
        }
        if d == Lean {
          return None;
        }
      }
      i := i + 1;
    }
    return None;
  }

  function Surface(g: Guest): seq<string> {
    seq(|g.actions|, i requires 0 <= i < |g.actions| => Action(g.actions[i]))
  }

  function Keep(surface: seq<string>, asked: seq<string>): seq<string> {
    if asked == [] then [] else (if asked[0] in surface then [asked[0]] else []) + Keep(surface, asked[1..])
  }

  function Narrow(surface: seq<string>, asked: Option<seq<string>>): seq<string> {
    match asked
    case None => surface
    case Some(a) => if Keep(surface, a) == [] then surface else Keep(surface, a)
  }

  /** `effective_prefixes` and `effectivePrefixes`; absent rules are empty bytes. */
  function EffectivePrefixes(d: Dialect, g: Guest, rules: bytes): seq<string> {
    match FromUtf8(rules)
    case None => Surface(g)
    case Some(text) => Narrow(Surface(g), ParseAllow(d, Lines(d, text)))
  }

  predicate StartsWithAny(prefixes: seq<string>, text: string) {
    exists k :: 0 <= k < |prefixes| && prefixes[k] <= text
  }

  function RunRegistry(d: Dialect, sha: Digest, g: Guest, config: bytes, inputs: bytes, rules: bytes): bytes {
    Report(sha, StartsWithAny(EffectivePrefixes(d, g, rules), InputText(inputs)), config, inputs)
  }

  lemma {:induction false} KeepWithin(surface: seq<string>, asked: seq<string>)
    ensures forall k :: 0 <= k < |Keep(surface, asked)| ==> Keep(surface, asked)[k] in surface
  {
    if asked != [] {
      KeepWithin(surface, asked[1..]);
    }
  }

  /** Whatever the rules say, a registry guest allows only what its built-in surface allows. */
  lemma RulesNeverGrant(d: Dialect, g: Guest, rules: bytes, text: string)
    requires StartsWithAny(EffectivePrefixes(d, g, rules), text)
    ensures StartsWithAny(Surface(g), text)
  {
    hide ParseAllow, Lines, Keep, Surface, FromUtf8;
    if FromUtf8(rules).Some? {
      var asked := ParseAllow(d, Lines(d, FromUtf8(rules).value));
      if asked.Some? {
        KeepWithin(Surface(g), asked.value);
      }
      var ps := EffectivePrefixes(d, g, rules);
      var k :| 0 <= k < |ps| && ps[k] <= text;
      assert ps[k] in Surface(g);
    }
  }

  /** Entries that are only the prefix are dropped or never match, so both dialects keep the same prefixes. */
  lemma {:induction false} AskedAgrees(surface: seq<string>, ps: seq<string>)
    requires forall k :: 0 <= k < |ps| ==> Plain(ps[k])
    requires forall k :: 0 <= k < |surface| ==> |surface[k]| > |"action="|
    ensures Keep(surface, Asked(Rust, ps)) == Keep(surface, Asked(Lean, ps))
    ensures Asked(Rust, ps) != [] ==> Asked(Lean, ps) != []
  {
    hide Trim, Plain;
    if ps != [] {
      TrimAgrees(ps[0]);
      AskedAgrees(surface, ps[1..]);
      var t := Trim(Rust, ps[0]);
      assert t == "" ==> |Prefixed(t)| == |"action="|;
      KeepAppend(surface, if |Prefixed(t)| <= |"action="| then [] else [Prefixed(t)], Asked(Rust, ps[1..]));
      KeepAppend(surface, if t == "" then [] else [Prefixed(t)], Asked(Lean, ps[1..]));
      assert |Prefixed(t)| <= |"action="| ==> Prefixed(t) !in surface;
      KeepOne(surface, Prefixed(t));
    }
  }

  lemma KeepOne(surface: seq<string>, p: string)
    ensures Keep(surface, [p]) == if p in surface then [p] else []
    ensures Keep(surface, []) == []
  {
    assert Keep(surface, [p][1..]) == [];
  }

  lemma {:induction false} KeepAppend(surface: seq<string>, a: seq<string>, b: seq<string>)
    ensures Keep(surface, a + b) == Keep(surface, a) + Keep(surface, b)
  {
    if a == [] {
      assert a + b == b;
    } else {
      var first: seq<string> := if a[0] in surface then [a[0]] else [];
      assert (a + b)[1..] == a[1..] + b;
      KeepAppend(surface, a[1..], b);
      assert first + (Keep(surface, a[1..]) + Keep(surface, b)) == first + Keep(surface, a[1..]) + Keep(surface, b);
    }
  }

  lemma {:induction false} ParseAllowOfClean(d: Dialect, ps: seq<string>)
    ensures ParseAllow(d, Clean(d, ps)) == ParseAllow(d, ps)
  {
    hide Trim, Asked, Value, Key, Split;
    if ps != [] {
      ParseAllowOfClean(d, ps[1..]);
      TrimTwice(d, ps[0]);
      KeyFacts(d, AllowField);
      var t := Trim(d, ps[0]);
      var rest := Clean(d, ps[1..]);
      if t == "" {
        assert [] + rest == rest;
      } else {
        assert Clean(d, ps)[1..] == rest;
      }
    }
  }

  predicate IsAllowLine(line: string) {
    Key(AllowField) <= line
  }

  /** No `allow=` line contains a second `allow=`. */
  ghost predicate NoNested(ls: seq<string>) {
    forall k :: 0 <= k < |ls| && IsAllowLine(ls[k]) ==> NoOccurrence(ls[k][|Key(AllowField)|..], Key(AllowField))
  }

  /** Rules with plain white space and no nested key: both dialects then see the same lines and the same values. */
  ghost predicate PlainRules(text: string) {
    Plain(text) && NoNested(Clean(Rust, Lines(Rust, text)))
  }

  /** The prefixes that Rust drops and Lean keeps.  The first `allow=` line decides in Lean; when it has no entries Rust goes
      on and narrows by a later one. */
  function Dropped(surface: seq<string>, ls: seq<string>): set<string> {
    if ls == [] then {}
    else if !IsAllowLine(ls[0]) then Dropped(surface, ls[1..])
    else if Asked(Rust, Split(ls[0][|Key(AllowField)|..], ',')) != [] then {}
    else set x | x in surface && x !in Narrow(surface, ParseAllow(Rust, ls[1..]))
  }

  function DroppedBy(g: Guest, rules: bytes): set<string> {
    match FromUtf8(rules)
    case None => {}
    case Some(text) => Dropped(Surface(g), Clean(Rust, Lines(Rust, text)))
  }

  /** On one plain `allow=` line both dialects keep the same prefixes, and Lean sees entries wherever Rust does. */
  lemma AllowLineAgrees(surface: seq<string>, line: string)
    requires Plain(line) && IsAllowLine(line)
    requires NoOccurrence(line[|Key(AllowField)|..], Key(AllowField))
    requires forall k :: 0 <= k < |surface| ==> |surface[k]| > |"action="|
    ensures
      var rest := line[|Key(AllowField)|..];
      Value(Rust, AllowField, line) == Value(Lean, AllowField, line) == rest &&
      var r, l := Asked(Rust, Split(rest, ',')), Asked(Lean, Split(rest, ','));
      Keep(surface, r) == Keep(surface, l) && (r != [] ==> l != [])
  {
    hide Key, Plain, Split, Asked, Keep, NoOccurrence, Before, SliceOf;
    var rest := line[|Key(AllowField)|..];
    KeyFacts(Lean, AllowField);
    BeforeAll(rest, Key(AllowField));
    assert line[|Key(AllowField)|..|line|] == rest;
    SliceIntro(line, |Key(AllowField)|, |line|);
    SlicePlain(rest, line);
    SplitSlices(rest, ',');
    forall k | 0 <= k < |Split(rest, ',')|
      ensures Plain(Split(rest, ',')[k])
    {
      SlicePlain(Split(rest, ',')[k], rest);
    }
    AskedAgrees(surface, Split(rest, ','));
  }

  lemma KeepNothing(surface: seq<string>)
    ensures Keep(surface, []) == []
  {
  }

  /** What both dialects keep of the surface, as sets: Lean keeps what Rust keeps and what Rust drops. */
  lemma {:induction false} RulesRead(surface: seq<string>, ls: seq<string>)
    requires NonEmptyTrimmed(Rust, ls) && NonEmptyTrimmed(Lean, ls) && NoNested(ls)
    requires forall k :: 0 <= k < |ls| ==> Plain(ls[k])
    requires forall k :: 0 <= k < |surface| ==> |surface[k]| > |"action="|
    ensures
      var r, l := Narrow(surface, ParseAllow(Rust, ls)), Narrow(surface, ParseAllow(Lean, ls));
      (forall x :: x in l <==> x in r || x in Dropped(surface, ls)) &&
      (forall x :: x in Dropped(surface, ls) ==> x !in r)
  {
    hide Trim, Trimmed, Asked, Value, Key, Split, Plain, NoOccurrence, Narrow;
    if ls != [] {
      TrimFixed(Rust, ls[0]);
      TrimFixed(Lean, ls[0]);
      if IsAllowLine(ls[0]) {
        AllowLineAgrees(surface, ls[0]);
        AllowLineReads(surface, ls);
      } else {
        NestedTail(ls);
        RulesRead(surface, ls[1..]);
      }
    }
  }

  lemma NestedTail(ls: seq<string>)
    requires ls != [] && NoNested(ls)
    ensures NoNested(ls[1..])
  {
    hide NoOccurrence, Key;
  }

  /** The case of a line that decides in Lean. */
  lemma AllowLineReads(surface: seq<string>, ls: seq<string>)
    requires ls != [] && IsAllowLine(ls[0]) && Trim(Rust, ls[0]) == ls[0] && Trim(Lean, ls[0]) == ls[0]
    requires
      var rest := ls[0][|Key(AllowField)|..];
      Value(Rust, AllowField, ls[0]) == Value(Lean, AllowField, ls[0]) == rest &&
      var r, l := Asked(Rust, Split(rest, ',')), Asked(Lean, Split(rest, ','));
      Keep(surface, r) == Keep(surface, l) && (r != [] ==> l != [])
    ensures
      var r, l := Narrow(surface, ParseAllow(Rust, ls)), Narrow(surface, ParseAllow(Lean, ls));
      (forall x :: x in l <==> x in r || x in Dropped(surface, ls)) &&
      (forall x :: x in Dropped(surface, ls) ==> x !in r)
  {
    hide Trim, Asked, Value, Key, Split;
    var asked := Asked(Rust, Split(ls[0][|Key(AllowField)|..], ','));
    if asked == [] {
      KeepNothing(surface);
      NarrowWithin(surface, ParseAllow(Rust, ls[1..]));
      assert Narrow(surface, ParseAllow(Lean, ls)) == surface;
    }
  }

  lemma NarrowWithin(surface: seq<string>, asked: Option<seq<string>>)
    ensures forall x :: x in Narrow(surface, asked) ==> x in surface
  {
    if asked.Some? {
      KeepWithin(surface, asked.value);
    }
  }

  /** The built-in surfaces are proper actions, none of which begins another. */
  predicate ProperActions(g: Guest) {
    (forall k :: 0 <= k < |g.actions| ==> g.actions[k] != "") &&
    (forall x, y :: x in Surface(g) && y in Surface(g) && x <= y ==> x == y)
  }

  lemma StartsWithMember(ps: seq<string>, text: string)
    ensures StartsWithAny(ps, text) <==> exists x :: x in ps && x <= text
  {
    if x :| x in ps && x <= text {
      var k :| 0 <= k < |ps| && ps[k] == x;
      assert ps[k] <= text;
    }
    if StartsWithAny(ps, text) {
      var k :| 0 <= k < |ps| && ps[k] <= text;
      assert ps[k] in ps;
    }
  }

  lemma SurfaceLong(g: Guest)
    requires ProperActions(g)
    ensures forall k :: 0 <= k < |Surface(g)| ==> |Surface(g)[k]| > |"action="|
  {
  }

  lemma EffectivePrefixesRead(g: Guest, rules: bytes)
    requires ProperActions(g)
    requires FromUtf8(rules).Some? ==> PlainRules(FromUtf8(rules).value)
    ensures
      var r, l := EffectivePrefixes(Rust, g, rules), EffectivePrefixes(Lean, g, rules);
      (forall x :: x in l <==> x in r || x in DroppedBy(g, rules)) &&
      (forall x :: x in DroppedBy(g, rules) ==> x !in r) && (forall x :: x in l ==> x in Surface(g))
  {
    hide Clean, Lines, Split, Plain, NoNested, ParseAllow, Keep, Narrow, NonEmptyTrimmed, FromUtf8, Dropped, Surface,
      ProperActions;
    SurfaceLong(g);
    if FromUtf8(rules).Some? {
      var text := FromUtf8(rules).value;
      CleanedLinesAgree(text);
      var ls := Clean(Rust, Lines(Rust, text));
      CleanPieces(Rust, Lines(Rust, text));
      CleanPieces(Lean, Lines(Lean, text));
      ParseAllowOfClean(Rust, Lines(Rust, text));
      ParseAllowOfClean(Lean, Lines(Lean, text));
      RulesRead(Surface(g), ls);
      NarrowWithin(Surface(g), ParseAllow(Lean, Lines(Lean, text)));
    }
  }

  /** On plain rules, with any number of `allow=` lines, a registry guest gives one output in both languages exactly when
      the input does not start with a prefix that only Rust drops. */
  lemma RegistryAgrees(sha: Digest, g: Guest, config: bytes, inputs: bytes, rules: bytes)
    requires ProperActions(g)
    requires FromUtf8(rules).Some? ==> PlainRules(FromUtf8(rules).value)
    ensures RunRegistry(Rust, sha, g, config, inputs, rules) == RunRegistry(Lean, sha, g, config, inputs, rules) <==>
            forall x :: x in DroppedBy(g, rules) ==> !(x <= InputText(inputs))
  {
    hide EffectivePrefixes, Report, StartsWithAny, InputText, PlainRules, DroppedBy, ProperActions;
    EffectivePrefixesRead(g, rules);
    var r, l, text := EffectivePrefixes(Rust, g, rules), EffectivePrefixes(Lean, g, rules), InputText(inputs);
    StartsWithMember(r, text);
    StartsWithMember(l, text);
    if RunRegistry(Rust, sha, g, config, inputs, rules) == RunRegistry(Lean, sha, g, config, inputs, rules) {
      ReportShowsDecision(sha, StartsWithAny(r, text), config, inputs, StartsWithAny(l, text), config, inputs);
    }
    DecisionsDiffer(g, r, l, DroppedBy(g, rules), text);
  }

  lemma DecisionsDiffer(g: Guest, r: seq<string>, l: seq<string>, dropped: set<string>, text: string)
    requires ProperActions(g)
    requires (forall x :: x in l <==> x in r || x in dropped) && (forall x :: x in dropped ==> x !in r)
    requires forall x :: x in l ==> x in Surface(g)
    ensures (exists x :: x in r && x <= text) != (exists x :: x in l && x <= text) <==>
            exists x :: x in dropped && x <= text
  {
    hide Surface;
    forall x, y | x in dropped && x <= text && y in r && y <= text
      ensures false
    {
      PrefixesOfOne(x, y, text);
    }
  }

  lemma PrefixesOfOne(x: string, y: string, text: string)
    requires x <= text && y <= text
    ensures x <= y || y <= x
  {
    assert x == text[..|x|] && y == text[..|y|];
  }

  /** Hence on all inputs exactly when Rust drops nothing, which a caller can check on the rules. */
  lemma RulesAgree(sha: Digest, g: Guest, config: bytes, rules: bytes)
    requires ProperActions(g)
    requires FromUtf8(rules).Some? ==> PlainRules(FromUtf8(rules).value)
    ensures (forall inputs ::
               RunRegistry(Rust, sha, g, config, inputs, rules) == RunRegistry(Lean, sha, g, config, inputs, rules)) <==>
            DroppedBy(g, rules) == {}
  {
    hide RunRegistry, InputText, PlainRules, DroppedBy, ProperActions, Encode;
    forall inputs
      ensures RunRegistry(Rust, sha, g, config, inputs, rules) == RunRegistry(Lean, sha, g, config, inputs, rules) <==>
              forall x :: x in DroppedBy(g, rules) ==> !(x <= InputText(inputs))
    {
      RegistryAgrees(sha, g, config, inputs, rules);
    }
    if x :| x in DroppedBy(g, rules) {
      InputTextOfEncode(x);
      assert x <= InputText(Encode(x));
      assert RunRegistry(Rust, sha, g, config, Encode(x), rules) != RunRegistry(Lean, sha, g, config, Encode(x), rules);
    }
  }

  /** Where rules have two `allow=` lines the languages part: Rust passes over one without entries, Lean stops at it. */
  lemma RegistryDiffersExample(sha: Digest, config: bytes)
    ensures
      var g := Guest("voting_operator", "lean-tee/voting_operator/lean-sp1/v1", ["vote.yes", "vote.no"]);
      var rules, inputs := Encode("allow=\nallow=vote.yes"), Encode("action=vote.no");
      g in Builtin() &&
      RunRegistry(Rust, sha, g, config, inputs, rules) != RunRegistry(Lean, sha, g, config, inputs, rules)
  {
    hide Encode, Report, ParseAllow, Surface, FromUtf8, InputText, Lines, Keep, Builtin;
    var g := Guest("voting_operator", "lean-tee/voting_operator/lean-sp1/v1", ["vote.yes", "vote.no"]);
    var rules, inputs := Encode("allow=\nallow=vote.yes"), Encode("action=vote.no");
    VotingIsBuiltin();
    FromUtf8OfEncode("allow=\nallow=vote.yes");
    InputTextOfEncode("action=vote.no");
    TwoAllowLines(Rust);
    TwoAllowLines(Lean);
    VotingSurface(g);
    KeepOne(Surface(g), "action=vote.yes");
    assert "action=vote.yes"[12] != "action=vote.no"[12];
    assert EffectivePrefixes(Rust, g, rules) == ["action=vote.yes"];
    assert EffectivePrefixes(Lean, g, rules)[1] <= "action=vote.no";
    if RunRegistry(Rust, sha, g, config, inputs, rules) == RunRegistry(Lean, sha, g, config, inputs, rules) {
      ReportShowsDecision(sha, false, config, inputs, true, config, inputs);
    }
  }

  lemma VotingIsBuiltin()
    ensures Guest("voting_operator", "lean-tee/voting_operator/lean-sp1/v1", ["vote.yes", "vote.no"]) in Builtin()
  {
    assert Builtin()[1] == Guest("voting_operator", "lean-tee/voting_operator/lean-sp1/v1", ["vote.yes", "vote.no"]);
  }

  lemma VotingSurface(g: Guest)
    requires g.actions == ["vote.yes", "vote.no"]
    ensures Surface(g) == ["action=vote.yes", "action=vote.no"]
  {
    assert Action("vote.yes") == "action=vote.yes" && Action("vote.no") == "action=vote.no";
  }

  lemma TwoAllowLines(d: Dialect)
    ensures ParseAllow(d, Lines(d, "allow=\nallow=vote.yes")) == if d == Rust then Some(["action=vote.yes"]) else None
  {
    hide Lines, Clean, Split, ParseAllow, Asked, Value;
    var text := "allow=\nallow=vote.yes";
    assert text == "allow=" + ['\n'] + "allow=vote.yes";
    SplitAtSeparator("allow=", '\n', "allow=vote.yes");
    SplitFree("allow=vote.yes", '\n');
    CleanLines(d, text);
    ParseAllowOfClean(d, Lines(d, text));
    ParseAllowOfClean(d, Split(text, '\n'));
    assert Split(text, '\n') == ["allow=", "allow=vote.yes"];
    ReadTwoAllowLines(d);
  }

  lemma ReadTwoAllowLines(d: Dialect)
    ensures ParseAllow(d, ["allow=", "allow=vote.yes"]) == if d == Rust then Some(["action=vote.yes"]) else None
  {
    hide Asked, Value, Split, Trim;
    var ls := ["allow=", "allow=vote.yes"];
    assert ls[1..] == ["allow=vote.yes"];
    TrimFixed(d, "allow=");
    TrimFixed(d, "allow=vote.yes");
    assert "allow=" == Key(AllowField) + "" && "allow=vote.yes" == Key(AllowField) + "vote.yes";
    NoOccurrenceInEmpty(Key(AllowField));
    PlainValue(d, AllowField, "");
    NoAllowInAction();
    PlainValue(d, AllowField, "vote.yes");
    AskedOf(d, "");
    AskedOf(d, "vote.yes");
  }

  lemma NoAllowInAction()
    ensures NoOccurrence("vote.yes", Key(AllowField))
  {
    var key := Key(AllowField);
    forall i: nat
      ensures !At("vote.yes", i, key)
    {
      AtMeans("vote.yes", i, key, 0);
    }
  }

  lemma AskedOf(d: Dialect, v: string)
    requires v == "" || v == "vote.yes"
    ensures Asked(d, Split(v, ',')) == if v == "" then [] else ["action=vote.yes"]
  {
    hide Trim, Split;
    assert Trimmed(d, v);
    TrimFixed(d, v);
    SplitFree(v, ',');
    assert [v][1..] == [];
    if v != "" {
      assert "action="[0] != v[0];
      assert Prefixed(v) == "action=vote.yes";
    }
  }

  // ---------- The measured entry ----------

  datatype GuestError = WrongCodeHash | WrongConfigHash | BadProgram(Error) | UnknownCodeHash | NeedsProgram |
    WrongRulesHash

  /** `builtin.find?` by code hash. */
  function FindByCode(sha: Digest, gs: seq<Guest>, code: bytes): Option<Guest> {
    if gs == [] then None else if CodeHash(sha, gs[0]) == code then Some(gs[0]) else FindByCode(sha, gs[1..], code)
  }

  /** `run_measured` (Rust) and, up to its error mapping, `guestRun` (Lean). */
  function Measured(d: Dialect, sha: Digest, code: bytes, config: bytes, inputs: bytes, program: bytes, rules: bytes)
    : Result<bytes, GuestError>
  {
    if program != [] then
      if code != CodeHash(sha, Runtime()) then Err(WrongCodeHash)
      else if sha(program) != config then Err(WrongConfigHash)
      else
        match RunBytes(d, sha, program, inputs, DEFAULT_MAX_PROGRAM_BYTES)
        case Err(e) => Err(BadProgram(e))
        case Ok(out) => Ok(out)
    else
      match FindByCode(sha, Builtin(), code)
      case None => Err(UnknownCodeHash)
      case Some(g) =>
        if g.guestId == Runtime().guestId then Err(NeedsProgram)
        else if rules != [] && sha(rules) != config then Err(WrongRulesHash)
        else Ok(RunRegistry(d, sha, g, config, inputs, rules))
  }

  /** `denyGuestError`. */
  function GuestErrorOutput(): bytes {
    Encode("decision=deny\nreason=guest_error\n")
  }

  /** `guestRun`: every error becomes the fixed denial. */
  function GuestRunLean(sha: Digest, code: bytes, config: bytes, inputs: bytes, program: bytes, rules: bytes): bytes {
    match Measured(Lean, sha, code, config, inputs, program, rules)
    case Ok(out) => out
    case Err(_) => GuestErrorOutput()
  }

  lemma {:induction false} FoundIsBuiltin(sha: Digest, gs: seq<Guest>, code: bytes)
    ensures FindByCode(sha, gs, code).Some? ==>
      FindByCode(sha, gs, code).value in gs && CodeHash(sha, FindByCode(sha, gs, code).value) == code
  {
    hide CodeHash;
    if gs != [] {
      FoundIsBuiltin(sha, gs[1..], code);
    }
  }

  lemma BuiltinActions()
    ensures forall g :: g in Builtin() ==> ProperActions(g)
  {
    forall g | g in Builtin()
      ensures ProperActions(g)
    {
      ProperOne(g);
    }
  }

  /** No built-in action begins another one of the same guest. */
  lemma ProperOne(g: Guest)
    requires g in Builtin()
    ensures ProperActions(g)
  {
    hide Surface;
    forall x, y | x in Surface(g) && y in Surface(g) && x <= y
      ensures x == y
    {
      var i := SurfaceIndex(g, x);
      var j := SurfaceIndex(g, y);
      ActionsApart(g, i, j);
      assert y[..|x|] == x;
      assert y[7..][..|x| - 7] == x[7..];
    }
  }

  lemma SurfaceIndex(g: Guest, x: string) returns (i: nat)
    requires x in Surface(g)
    ensures i < |g.actions| && x == Action(g.actions[i]) && |x| == 7 + |g.actions[i]| && x[7..] == g.actions[i]
  {
    i :| 0 <= i < |Surface(g)| && Surface(g)[i] == x;
  }

  lemma ActionsApart(g: Guest, i: nat, j: nat)
    requires g in Builtin() && i < |g.actions| && j < |g.actions|
    ensures g.actions[i] <= g.actions[j] ==> i == j
    ensures g.actions[i] != ""
  {
    var a, b := g.actions[i], g.actions[j];
    if a <= b {
      assert a[0] == b[0] && a[5] == b[5] && (|a| > 10 ==> a[10] == b[10]);
    }
  }

  /** Texts that both parsers read alike: nothing exotic in them, or the print of a program canonical for both. */
  ghost predicate ReadAlike(text: string) {
    SafeText(text) ||
    (ParseText(Rust, text).Ok? &&
     var p := ParseText(Rust, text).value;
     Serialize(p) == text && Canonical(Lean, p))
  }

  lemma ReadAlikeMeans(text: string)
    requires ReadAlike(text)
    ensures ParseText(Rust, text) == ParseText(Lean, text)
  {
    hide ParseText, SafeText, Serialize, Canonical;
    if SafeText(text) {
      ParsersAgree(text);
    } else {
      AcceptedIsCanonical(Rust, text);
      ParsersAgreeOnPrint(ParseText(Rust, text).value);
    }
  }

  /** The rules drop, in Rust only, a prefix with which the input starts. */
  predicate RulesSplit(g: Guest, rules: bytes, inputs: bytes) {
    exists x :: x in DroppedBy(g, rules) && x <= InputText(inputs)
  }

  /** What a caller can check to know that the two guests will agree. */
  ghost predicate SafeCall(sha: Digest, code: bytes, program: bytes, rules: bytes, inputs: bytes) {
    if program != [] then
      FromUtf8(program).Some? ==>
        var text := FromUtf8(program).value;
        ReadAlike(text) && (ParseText(Rust, text).Ok? ==> !GateSplits(ParseText(Rust, text).value, inputs))
    else
      FindByCode(sha, Builtin(), code).Some? ==>
        (FromUtf8(rules).Some? ==> PlainRules(FromUtf8(rules).value)) &&
        !RulesSplit(FindByCode(sha, Builtin(), code).value, rules, inputs)
  }

  /** The Lean guest gives what its Rust twin gives, with Rust's errors mapped to the fixed denial. */
  predicate GuestsAgree(sha: Digest, code: bytes, config: bytes, inputs: bytes, program: bytes, rules: bytes) {
    GuestRunLean(sha, code, config, inputs, program, rules) ==
    match Measured(Rust, sha, code, config, inputs, program, rules)
    case Ok(out) => out
    case Err(_) => GuestErrorOutput()
  }

  lemma TwinsAgree(sha: Digest, code: bytes, config: bytes, inputs: bytes, program: bytes, rules: bytes)
    requires SafeCall(sha, code, program, rules, inputs)
    ensures GuestsAgree(sha, code, config, inputs, program, rules)
  {
    hide CodeHash, Builtin, Run, RunRegistry, ParseText, ReadAlike, PlainRules, GateSplits, FromUtf8, FindByCode,
      GuestErrorOutput, ProperActions, DroppedBy, InputText;
    if program != [] {
      if FromUtf8(program).Some? {
        var text := FromUtf8(program).value;
        ReadAlikeMeans(text);
        if ParseText(Rust, text).Ok? {
          RunnersAgree(sha, ParseText(Rust, text).value, inputs);
        }
      }
    } else {
      FoundIsBuiltin(sha, Builtin(), code);
      BuiltinActions();
      if FindByCode(sha, Builtin(), code).Some? {
        RegistryAgrees(sha, FindByCode(sha, Builtin(), code).value, config, inputs, rules);
      }
    }
  }

  /** The call gets as far as running a registry guest. */
  predicate RunsRegistry(sha: Digest, code: bytes, config: bytes, rules: bytes) {
    var found := FindByCode(sha, Builtin(), code);
    found.Some? && found.value.guestId != Runtime().guestId && (rules == [] || sha(rules) == config)
  }

  /** On every call without a program and with plain rules: the two guests agree exactly when the rules do not split the
      input, or the call fails in both before it runs a guest. */
  lemma TwinsAgreeOnRules(sha: Digest, code: bytes, config: bytes, inputs: bytes, rules: bytes)
    requires FromUtf8(rules).Some? ==> PlainRules(FromUtf8(rules).value)
    ensures GuestsAgree(sha, code, config, inputs, [], rules) <==>
            (RunsRegistry(sha, code, config, rules) ==>
               !RulesSplit(FindByCode(sha, Builtin(), code).value, rules, inputs))
  {
    hide CodeHash, Builtin, RunRegistry, PlainRules, FromUtf8, FindByCode, GuestErrorOutput, ProperActions, DroppedBy,
      InputText, Runtime;
    FoundIsBuiltin(sha, Builtin(), code);
    BuiltinActions();
    if FindByCode(sha, Builtin(), code).Some? {
      RegistryAgrees(sha, FindByCode(sha, Builtin(), code).value, config, inputs, rules);
    }
  }

  /** Both parsers refuse the text, or both read the same program and their interpreters agree on the input. */
  predicate SameReading(text: string, inputs: bytes) {
    var r, l := ParseText(Rust, text), ParseText(Lean, text);
    if r.Ok? then l == r && !GateSplits(r.value, inputs) else l.Err?
  }

  /** The text is read as different programs that collide on the input. */
  predicate ReadingsCollide(sha: Digest, text: string, inputs: bytes) {
    var r, l := ParseText(Rust, text), ParseText(Lean, text);
    r.Ok? && l.Ok? && r != l && RunsCollide(sha, r.value, l.value, inputs)
  }

  /** On every program that gets past the measurement check, whatever its text, the two guests agree exactly when they
      read it alike, or two preimages collide. */
  lemma TwinsAgreeOnProgram(sha: Digest, inputs: bytes, program: bytes, rules: bytes)
    requires Results32(sha) && 0 < |program| <= DEFAULT_MAX_PROGRAM_BYTES && FromUtf8(program).Some?
    ensures
      var text := FromUtf8(program).value;
      var agree := GuestsAgree(sha, CodeHash(sha, Runtime()), sha(program), inputs, program, rules);
      (SameReading(text, inputs) ==> agree) &&
      (agree ==> SameReading(text, inputs) || ReadingsCollide(sha, text, inputs))
  {
    hide CodeHash, Runtime, Builtin, Run, ParseText, GateSplits, FromUtf8, GuestErrorOutput, WellShaped, RunsCollide,
      RunRegistry, FindByCode, Results32;
    var text := FromUtf8(program).value;
    var r, l := ParseText(Rust, text), ParseText(Lean, text);
    if r.Ok? {
      AcceptedShape(Rust, text);
      RunIsNotError(Rust, sha, r.value, inputs);
      RunnersAgree(sha, r.value, inputs);
    }
    if l.Ok? {
      AcceptedShape(Lean, text);
      RunIsNotError(Lean, sha, l.value, inputs);
    }
    if r.Ok? && l.Ok? && Run(Rust, sha, r.value, inputs) == Run(Lean, sha, l.value, inputs) {
      OutputBindsProgram(sha, Rust, r.value, Lean, l.value, inputs);
    }
  }

  lemma RunIsNotError(d: Dialect, sha: Digest, p: Program, inputs: bytes)
    requires Results32(sha)
    ensures Run(d, sha, p, inputs) != GuestErrorOutput()
  {
    hide Encode, Report, Allowed, Serialize, Results32;
    assert HexVal("guest_error"[0]) == None;
    ReportIsNotFixed(sha, Allowed(d, p, inputs), sha(Encode(Serialize(p))), inputs, "guest_error");
    assert "decision=deny\nreason=" + "guest_error" + "\n" == "decision=deny\nreason=guest_error\n";
  }

  /** On the text of a program canonical for Rust: the guests agree exactly when the program is canonical for Lean too and
      the input does not split the gate, or two preimages collide. */
  lemma TwinsAgreeOnPrint(sha: Digest, p: Program, inputs: bytes, rules: bytes)
    requires Results32(sha) && Canonical(Rust, p) && Size(Serialize(p)) <= DEFAULT_MAX_PROGRAM_BYTES
    ensures
      var program := Encode(Serialize(p));
      var agree := GuestsAgree(sha, CodeHash(sha, Runtime()), sha(program), inputs, program, rules);
      var alike := Canonical(Lean, p) && !GateSplits(p, inputs);
      (alike ==> agree) && (agree ==> alike || ReadingsCollide(sha, Serialize(p), inputs))
  {
    hide GuestsAgree, ParseText, Serialize, Canonical, Encode, GateSplits, FromUtf8, ReadingsCollide, Results32;
    var n := Size(Serialize(p));
    assert Serialize(p) != "" by { SerializeMeans(p); }
    TextSize(Serialize(p));
    FromUtf8OfEncode(Serialize(p));
    RoundTrip(Rust, p, n);
    ParsersAgreeOnPrint(p);
    TwinsAgreeOnProgram(sha, inputs, Encode(Serialize(p)), rules);
  }
}
