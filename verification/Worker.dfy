// The sealed worker's program, host/confidential/src/bin/sealed_worker.rs, and the server's end of its pipes,
// `runSealedWorkerHex` in LeanTee/Confidential.lean.

module Worker {
  import opened Wrappers
  import opened Text
  import opened Framing
  import opened Hex
  import opened Pipe
  import opened GuestProg
  import opened GuestRun
  import opened Services

  // ---------- The worker ----------

  /** `resolve_guest` with `normalize_guest_id`. */
  function ResolveById(id: string): Option<Guest> {
    var t := Trim(Rust, id);
    FindGuest(Builtin(), if t == "" || t == "compliance_operator/v1" then "compliance_operator" else t)
  }

  /** The worker's `run_guest`: the secret is the rules of a registry guest, and plays no part in running a program. */
  function Dispatch(sha: Digest, guestId: string, public: bytes, secret: bytes, extra: bytes): Option<bytes> {
    if guestId == Runtime().guestId then
      if extra == [] then None
      else
        match RunBytes(Rust, sha, extra, public, DEFAULT_MAX_PROGRAM_BYTES)
        case Err(_) => None
        case Ok(out) => Some(out)
    else
      match ResolveById(guestId)
      case None => None
      case Some(g) =>
        var rules := if secret == [] then extra else secret;
        Some(RunRegistry(Rust, sha, g, sha(rules), public, rules))
  }

  const OUTPUTS: string := "outputs_hex="
  const DIGEST: string := "digest_hex="

  /** What `main` prints with `--hex-out`. */
  function Printed(outputs: bytes, secretDigest: bytes): string {
    "OK\n" + OUTPUTS + HexEncode(outputs) + "\n" + DIGEST + HexEncode(secretDigest) + "\n"
  }

  /** `main`: a failure to read or to run ends the process with an error. */
  function WorkerMain(sha: Digest, guestId: string, stdin: bytes): Option<string> {
    match ThreeBlobs(stdin)
    case Err(_) => None
    case Ok((public, secret, extra, _)) =>
      match Dispatch(sha, guestId, public, secret, extra)
      case None => None
      case Some(outputs) => Some(Printed(outputs, sha(secret)))
  }

  // ---------- The server's end ----------

  /** The loop over the lines after OK: the last line of each kind counts. */
  function Fields(lines: seq<string>, outputs: string, digest: string): (string, string)
    decreases lines
  {
    if lines == [] then (outputs, digest)
    else if OUTPUTS <= lines[0] then Fields(lines[1..], Before(lines[0][|OUTPUTS|..], OUTPUTS), digest)
    else if DIGEST <= lines[0] then Fields(lines[1..], outputs, Before(lines[0][|DIGEST|..], DIGEST))
    else Fields(lines[1..], outputs, digest)
  }

  /** How the server reads the worker's answer. */
  function ReadPrinted(text: string): Option<Sealed> {
    var lines := Clean(Lean, Split(text, '\n'));
    if lines == [] || lines[0] != "OK" then None
    else
      var (outputs, digest) := Fields(lines[1..], "", "");
      if outputs == "" || digest == "" then None
      else
        match (HexDecode(outputs), HexDecode(digest))
        case (Some(o), Some(d)) => if |d| != 32 then None else Some(Sealed(o, d))
        case _ => None
  }

  function Extra(p: Prepared): bytes {
    if p.guest.guestId == Runtime().guestId then p.program else []
  }

  /** `runSealedWorkerHex` with the repository's worker at the other end. */
  function RunSealed(sha: Digest, p: Prepared): Option<Sealed> {
    match WorkerMain(sha, p.guest.guestId, Pipe.Payload(p.inputs, p.secret, Extra(p)))
    case None => None
    case Some(text) => ReadPrinted(text)
  }

  /** The loop as the source has it. */
  method FieldsLoop(lines: seq<string>) returns (outputs: string, digest: string)
    ensures (outputs, digest) == Fields(lines, "", "")
  {
    hide Before;
    outputs, digest := "", "";
    var i := 0;
    while i < |lines|
      invariant 0 <= i <= |lines|
      invariant Fields(lines, "", "") == Fields(lines[i..], outputs, digest)
    {
      var line := lines[i];
      assert lines[i..][0] == line && lines[i..][1..] == lines[i + 1..];
      if OUTPUTS <= line {
        outputs := Before(line[|OUTPUTS|..], OUTPUTS);
      } else if DIGEST <= line {
        digest := Before(line[|DIGEST|..], DIGEST);
      }
      i := i + 1;
    }
  }

  // ---------- The answer survives the pipe ----------

  lemma {:induction false} HexChars(b: bytes, i: nat)
    requires i < 2 * |b|
    ensures HexVal(HexEncode(b)[i]).Some?
  {
    hide HexVal, HexDigit;
    if i >= 2 {
      HexChars(b[1..], i - 2);
    }
  }

  lemma HexDigitIsPlain(c: char)
    requires HexVal(c).Some?
    ensures c != '\n' && !IsSpace(Lean, c) && c != 'o' && c != 'i' && c as int < 0x80
  {
  }

  /** Characters that neither break a line, nor are trimmed, nor occur in a key. */
  predicate Inert(h: string) {
    forall i :: 0 <= i < |h| ==> h[i] != '\n' && !IsSpace(Lean, h[i]) && h[i] != 'o' && h[i] != 'i'
  }

  lemma HexIsInert(b: bytes)
    ensures Inert(HexEncode(b))
  {
    hide HexEncode, HexVal, IsSpace;
    var h := HexEncode(b);
    forall i | 0 <= i < |h|
      ensures h[i] != '\n' && !IsSpace(Lean, h[i]) && h[i] != 'o' && h[i] != 'i'
    {
      HexChars(b, i);
      HexDigitIsPlain(h[i]);
    }
  }

  lemma NoKeyInside(key: string, h: string)
    requires (key == OUTPUTS || key == DIGEST) && Inert(h)
    ensures Before(h, key) == h
  {
    hide IsSpace, Before, At;
    KeyIsPlain(key);
    forall i: nat
      ensures !At(h, i, key)
    {
      AtMeans(h, i, key, 0);
      AtMeans(h, i, key, 1);
    }
    assert NoOccurrence(h, key) by { NeverAt(h, key); }
    BeforeAll(h, key);
  }

  lemma NeverAt(h: string, key: string)
    requires forall i: nat :: !At(h, i, key)
    ensures NoOccurrence(h, key)
  {
  }

  lemma InertLine(key: string, h: string)
    requires (key == OUTPUTS || key == DIGEST) && Inert(h)
    ensures
      var line := key + h;
      Free(line, '\n') && line != "" && Trimmed(Lean, line) && line[|key|..] == h
  {
    hide IsSpace;
    KeyIsPlain(key);
    var line := key + h;
    assert line[0] == key[0] && line[|line| - 1] == (if h == "" then key[|key| - 1] else h[|h| - 1]);
  }

  /** A hexadecimal text after one of the keys: a clean line whose value is read whole. */
  lemma HexLine(key: string, b: bytes)
    requires key == OUTPUTS || key == DIGEST
    ensures
      var line := key + HexEncode(b);
      Free(line, '\n') && line != "" && Trimmed(Lean, line) && line[|key|..] == HexEncode(b) &&
      Before(HexEncode(b), key) == HexEncode(b)
  {
    hide HexEncode, Inert, Before, Trimmed, Free;
    HexIsInert(b);
    NoKeyInside(key, HexEncode(b));
    InertLine(key, HexEncode(b));
  }

  lemma KeyIsPlain(key: string)
    requires key == OUTPUTS || key == DIGEST
    ensures |key| > 1 && (key[0] == 'o' || key[1] == 'i') && Free(key, '\n')
    ensures !IsSpace(Lean, key[0]) && !IsSpace(Lean, key[|key| - 1])
  {
  }

  lemma PrintedLines(outputs: bytes, d: bytes)
    ensures Clean(Lean, Split(Printed(outputs, d), '\n')) == ["OK", OUTPUTS + HexEncode(outputs), DIGEST + HexEncode(d)]
  {
    hide HexEncode, Split, Clean, IsSpace, Trimmed, Before;
    var x, y := OUTPUTS + HexEncode(outputs), DIGEST + HexEncode(d);
    HexLine(OUTPUTS, outputs);
    HexLine(DIGEST, d);
    assert Printed(outputs, d) == "OK" + ['\n'] + (x + ['\n'] + (y + ['\n'] + ""));
    SplitAtSeparator("OK", '\n', x + ['\n'] + (y + ['\n'] + ""));
    SplitAtSeparator(x, '\n', y + ['\n'] + "");
    SplitAtSeparator(y, '\n', "");
    SplitFree("", '\n');
    var ls := ["OK", x, y];
    assert Split(Printed(outputs, d), '\n') == ls + [""];
    CleanAppend(Lean, ls, [""]);
    EmptyIsDropped();
    assert Trimmed(Lean, "OK") by { OkIsTrimmed(); }
    CleanFixed(Lean, ls);
  }

  lemma EmptyIsDropped()
    ensures Clean(Lean, [""]) == []
  {
    hide Trim;
    TrimFixed(Lean, "");
    assert Clean(Lean, [""][1..]) == [];
  }

  lemma OkIsTrimmed()
    ensures Trimmed(Lean, "OK")
  {
  }

  /** The server reads back exactly what the worker printed, if and only if there are outputs and the digest has 32 bytes. */
  lemma AnswerRoundTrip(outputs: bytes, d: bytes)
    ensures ReadPrinted(Printed(outputs, d)) == Some(Sealed(outputs, d)) <==> outputs != [] && |d| == 32
  {
    hide HexEncode, HexDecode, Split, Clean, Before, Printed;
    var x, y := OUTPUTS + HexEncode(outputs), DIGEST + HexEncode(d);
    PrintedLines(outputs, d);
    HexLine(OUTPUTS, outputs);
    HexLine(DIGEST, d);
    assert ["OK", x, y][1..] == [x, y] && [x, y][1..] == [y] && [y][1..] == [];
    KeysDiffer(HexEncode(d));
    assert Fields([x, y], "", "") == Fields([y], HexEncode(outputs), "") == Fields([], HexEncode(outputs), HexEncode(d));
    DecodersAgree(outputs, "");
    DecodersAgree(d, "");
    assert |HexEncode(outputs)| == 2 * |outputs| && |HexEncode(d)| == 2 * |d|;
  }

  lemma KeysDiffer(h: string)
    ensures OUTPUTS <= OUTPUTS + h && DIGEST <= DIGEST + h && !(OUTPUTS <= DIGEST + h)
  {
    assert (DIGEST + h)[0] == 'd' && OUTPUTS[0] == 'o';
  }

  /** Lengths that the pipe's 32-bit prefixes carry. */
  predicate SmallRequest(p: Prepared) {
    |p.inputs| < 0x1_0000_0000 && |p.secret| < 0x1_0000_0000 && |p.program| < 0x1_0000_0000
  }

  /** Through both pipes: the worker's answer is what it computes from the very inputs, secret and program of the request,
      or there is none because one of them is over 16 MiB. */
  lemma WorkerAnswers(sha: Digest, p: Prepared)
    requires Results32(sha) && SmallRequest(p)
    ensures RunSealed(sha, p) ==
      if |p.inputs| > MAX_BLOB || |p.secret| > MAX_BLOB || |Extra(p)| > MAX_BLOB then None
      else
        match Dispatch(sha, p.guest.guestId, p.inputs, p.secret, Extra(p))
        case None => None
        case Some(out) => Some(Sealed(out, sha(p.secret)))
  {
    hide ThreeBlobs, Pipe.Payload, Dispatch, Printed, ReadPrinted, Runtime;
    if |p.inputs| > MAX_BLOB || |p.secret| > MAX_BLOB || |Extra(p)| > MAX_BLOB {
      OversizedIsRefused(p.inputs, p.secret, Extra(p));
    } else {
      PipeRoundTrip(p.inputs, p.secret, Extra(p));
      var answer := Dispatch(sha, p.guest.guestId, p.inputs, p.secret, Extra(p));
      if answer.Some? {
        var allowed, config := DispatchReports(sha, p.guest.guestId, p.inputs, p.secret, Extra(p));
        ReportNotEmpty(sha, allowed, config, p.inputs);
        assert |sha(p.secret)| == 32;
        AnswerRoundTrip(answer.value, sha(p.secret));
      }
    }
  }

  lemma ReportNotEmpty(sha: Digest, allowed: bool, config: bytes, inputs: bytes)
    ensures Report(sha, allowed, config, inputs) != []
  {
    hide EncodeChar, HexEncode, Concat;
  }

  /** Whatever the guest, the worker's outputs are a report on the public inputs. */
  lemma DispatchReports(sha: Digest, guestId: string, public: bytes, secret: bytes, extra: bytes)
    returns (allowed: bool, config: bytes)
    requires Results32(sha) && Dispatch(sha, guestId, public, secret, extra).Some?
    ensures |config| == 32 && Dispatch(sha, guestId, public, secret, extra).value == Report(sha, allowed, config, public)
  {
    hide Parse, Report, Allowed, Serialize, Encode, EffectivePrefixes, StartsWithAny, ResolveById, Runtime;
    if guestId == Runtime().guestId {
      var p := Parse(Rust, extra, DEFAULT_MAX_PROGRAM_BYTES).value;
      allowed, config := Allowed(Rust, p, public), sha(Encode(Serialize(p)));
    } else {
      var g := ResolveById(guestId).value;
      var rules := if secret == [] then extra else secret;
      allowed, config := StartsWithAny(EffectivePrefixes(Rust, g, rules), InputText(public)), sha(rules);
    }
  }

  /** The printed answer, letter by letter. */
  lemma PrintedText(outputs: bytes, d: bytes)
    ensures Printed(outputs, d) == "OK\noutputs_hex=" + HexEncode(outputs) + "\ndigest_hex=" + HexEncode(d) + "\n"
  {
    hide HexEncode;
    assert "OK\n" + OUTPUTS == "OK\noutputs_hex=" && "\n" + DIGEST == "\ndigest_hex=";
    assert Printed(outputs, d) == "OK\n" + OUTPUTS + HexEncode(outputs) + ("\n" + DIGEST) + HexEncode(d) + "\n";
  }
}
