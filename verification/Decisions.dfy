// What the outputs of a guest say: which decision they announce, and for which configuration and inputs.

module Decisions {
  import opened Wrappers
  import opened Text
  import opened Framing
  import opened Hex
  import opened GuestProg
  import opened GuestRun

  // ---------- The report ----------

  /** The bytes announce that the action is allowed, or denied. */
  predicate SaysAllow(out: bytes) {
    Encode("decision=allow\nreason=") <= out
  }

  predicate SaysDeny(out: bytes) {
    Encode("decision=deny\nreason=") <= out
  }

  lemma TextPrefix(head: string, rest: string)
    ensures Encode(head) <= Encode(head + rest)
  {
    hide Encode;
    EncodeAppend(head, rest);
  }

  lemma HeadChar(head: string, text: string, i: nat)
    requires Encode(head) <= Encode(text) && i < |head|
    ensures i < |text| && head[i] == text[i]
  {
    hide Encode;
    var tail := Encode(text)[|Encode(head)|..];
    assert Encode(text) == Encode(head) + tail;
    EncodePrefix(head, text, tail);
  }

  /** A report announces its decision, and not the other one. */
  lemma ReportSays(sha: Digest, allowed: bool, config: bytes, inputs: bytes)
    ensures SaysAllow(Report(sha, allowed, config, inputs)) <==> allowed
    ensures SaysDeny(Report(sha, allowed, config, inputs)) <==> !allowed
  {
    hide Encode, HexEncode, Concat;
    var rest := HexEncode(sha(Concat([config, inputs]))) + "\n";
    var yes, no := "decision=allow\nreason=", "decision=deny\nreason=";
    if allowed {
      TextPrefix(yes, rest);
      assert "decision=allow" + "\nreason=" + HexEncode(sha(Concat([config, inputs]))) + "\n" == yes + rest;
      assert no[9] == 'd' && (yes + rest)[9] == 'a';
      if Encode(no) <= Encode(yes + rest) {
        HeadChar(no, yes + rest, 9);
      }
    } else {
      TextPrefix(no, rest);
      assert "decision=deny" + "\nreason=" + HexEncode(sha(Concat([config, inputs]))) + "\n" == no + rest;
      assert yes[9] == 'a' && (no + rest)[9] == 'd';
      if Encode(yes) <= Encode(no + rest) {
        HeadChar(yes, no + rest, 9);
      }
    }
  }

  lemma HexIsOneLine(b: bytes)
    ensures Free(HexEncode(b), '\n')
  {
    hide HexEncode;
    forall i | 0 <= i < |HexEncode(b)|
      ensures HexEncode(b)[i] != '\n'
    {
      EncodedHasNoSpace(b, i);
    }
  }

  /** How a reader takes a report apart: a decision line, a reason line whose hexadecimal digits are the hash of
      configuration and inputs, and nothing more. */
  lemma ReportReads(sha: Digest, allowed: bool, config: bytes, inputs: bytes)
    ensures
      var reason := HexEncode(sha(Concat([config, inputs])));
      HexDecodeStrict(reason) == Some(sha(Concat([config, inputs]))) &&
      match FromUtf8(Report(sha, allowed, config, inputs))
      case None => false
      case Some(text) =>
        Split(text, '\n') == [if allowed then "decision=allow" else "decision=deny", "reason=" + reason, ""]
  {
    hide Encode, FromUtf8, HexEncode, HexDecodeStrict, Concat, Split;
    var hash := sha(Concat([config, inputs]));
    var first, second := if allowed then "decision=allow" else "decision=deny", "reason=" + HexEncode(hash);
    var text := (if allowed then "decision=allow" else "decision=deny") + "\nreason=" + HexEncode(hash) + "\n";
    HexRoundTrip(hash);
    HexIsOneLine(hash);
    FromUtf8OfEncode(text);
    assert text == first + ['\n'] + (second + ['\n'] + "");
    SplitAtSeparator(first, '\n', second + ['\n'] + "");
    SplitAtSeparator(second, '\n', "");
    SplitFree("", '\n');
  }

  // ---------- Programs ----------

  lemma AnyPrefixMeans(names: seq<string>, text: string)
    ensures AnyPrefix(names, text) <==> exists a :: a in names && "action=" + a <= text
  {
    if AnyPrefix(names, text) {
      var k :| 0 <= k < |names| && Action(names[k]) <= text;
      assert names[k] in names && "action=" + names[k] <= text;
    }
    if a :| a in names && "action=" + a <= text {
      var k :| 0 <= k < |names| && names[k] == a;
      assert Action(names[k]) <= text;
    }
  }

  /** Some line is blanks followed by `interaction=`. */
  predicate ShowsInteraction(d: Dialect, ls: seq<string>) {
    exists k :: 0 <= k < |ls| && GateLine(d, ls[k])
  }

  lemma InteractionMeans(d: Dialect, text: string)
    ensures HasInteraction(d, text) <==> ShowsInteraction(d, Split(text, '\n'))
  {
    hide HasInteraction, GateLine;
    GateMeans(d, text);
    var ls := Split(text, '\n');
    if ShowsInteraction(d, ls) {
      var k :| 0 <= k < |ls| && GateLine(d, ls[k]);
      assert GateLine(d, Split(text, '\n')[k]);
    }
  }

  /** When a program allows its inputs, in terms of its four rules: they are within the size limit, they show an
      interaction if one is required, they start with no denied action, and they start with an allowed one. */
  lemma AllowedMeans(d: Dialect, p: Program, inputs: bytes)
    ensures
      var text := InputText(inputs);
      Allowed(d, p, inputs) <==>
        |inputs| <= (if p.maxInput.Some? then p.maxInput.value else 65536) &&
        (p.requireInteraction ==> ShowsInteraction(d, Split(text, '\n'))) &&
        !(exists a :: a in p.deny && "action=" + a <= text) &&
        (exists a :: a in p.allow && "action=" + a <= text)
  {
    hide AnyPrefix, HasInteraction, Split, GateLine, InputText;
    var text := InputText(inputs);
    AnyPrefixMeans(p.deny, text);
    AnyPrefixMeans(p.allow, text);
    InteractionMeans(d, text);
    assert Cap(p) == if p.maxInput.Some? then p.maxInput.value else 65536;
  }

  /** A run announces what the program decides, and its reason is the hash of the program's hash and the inputs. */
  lemma RunSays(d: Dialect, sha: Digest, p: Program, inputs: bytes)
    ensures SaysAllow(Run(d, sha, p, inputs)) <==> Allowed(d, p, inputs)
    ensures SaysDeny(Run(d, sha, p, inputs)) <==> !Allowed(d, p, inputs)
  {
    hide Report, Allowed, Serialize, Encode, SaysAllow, SaysDeny;
    ReportSays(sha, Allowed(d, p, inputs), sha(Encode(Serialize(p))), inputs);
  }

  /** So does a run of a registry guest. */
  lemma RegistrySays(d: Dialect, sha: Digest, g: Guest, config: bytes, inputs: bytes, rules: bytes)
    ensures SaysAllow(RunRegistry(d, sha, g, config, inputs, rules)) <==>
            exists x :: x in EffectivePrefixes(d, g, rules) && x <= InputText(inputs)
    ensures SaysDeny(RunRegistry(d, sha, g, config, inputs, rules)) <==>
            !(exists x :: x in EffectivePrefixes(d, g, rules) && x <= InputText(inputs))
  {
    hide Report, EffectivePrefixes, InputText, SaysAllow, SaysDeny, StartsWithAny;
    var ps := EffectivePrefixes(d, g, rules);
    StartsWithMember(ps, InputText(inputs));
    ReportSays(sha, StartsWithAny(ps, InputText(inputs)), config, inputs);
  }

  /** Inputs that are not text are denied, by every program and every registry guest. */
  lemma UndecodableIsDenied(d: Dialect, p: Program, g: Guest, rules: bytes, inputs: bytes)
    requires FromUtf8(inputs) == None
    ensures !Allowed(d, p, inputs) && !StartsWithAny(EffectivePrefixes(d, g, rules), InputText(inputs))
  {
    hide FromUtf8, EffectivePrefixes, HasInteraction, Surface;
    if StartsWithAny(EffectivePrefixes(d, g, rules), InputText(inputs)) {
      RulesNeverGrant(d, g, rules, InputText(inputs));
      var k :| 0 <= k < |Surface(g)| && Surface(g)[k] <= "";
      SurfaceText(g, k);
    }
  }

  lemma SurfaceText(g: Guest, k: nat)
    requires k < |Surface(g)|
    ensures |Surface(g)[k]| >= 7
  {
  }

  // ---------- The prefixes of a registry guest ----------

  /** What an entry of an `allow=` line asks for. */
  predicate AskedBy(d: Dialect, entry: string, x: string) {
    var t := Trim(d, entry);
    x == (if "action=" <= t then t else "action=" + t) &&
    (match d case Rust => |x| > 7 case Lean => t != "")
  }

  lemma {:induction false} AskedMeans(d: Dialect, ps: seq<string>, x: string)
    ensures x in Asked(d, ps) <==> exists k :: 0 <= k < |ps| && AskedBy(d, ps[k], x)
  {
    hide Trim;
    if ps != [] {
      AskedMeans(d, ps[1..], x);
      assert forall k :: 0 <= k < |ps[1..]| ==> ps[1..][k] == ps[k + 1];
      if x in Asked(d, ps[1..]) {
        var k :| 0 <= k < |ps[1..]| && AskedBy(d, ps[1..][k], x);
        assert AskedBy(d, ps[k + 1], x);
      }
      if k :| 0 <= k < |ps| && AskedBy(d, ps[k], x) {
        if k > 0 {
          assert AskedBy(d, ps[1..][k - 1], x);
        }
      }
      if AskedBy(d, ps[0], x) {
        assert x in Asked(d, ps);
      }
    }
  }

  /** The entries of the line, when it is an `allow=` line once trimmed. */
  function AllowEntries(d: Dialect, line: string): Option<seq<string>> {
    var t := Trim(d, line);
    if "allow=" <= t then
      Some(Split(match d case Rust => t[6..] case Lean => Before(t[6..], "allow="), ','))
    else None
  }

  /** Line k decides: the first `allow=` line, where Rust passes over those that ask for nothing. */
  predicate Decides(d: Dialect, ls: seq<string>, k: nat) {
    k < |ls| && Candidate(d, ls[k]) && forall j :: 0 <= j < k ==> !Candidate(d, ls[j])
  }

  predicate Candidate(d: Dialect, line: string) {
    var es := AllowEntries(d, line);
    es.Some? && (d == Rust ==> Asked(d, es.value) != [])
  }

  lemma {:induction false} ParseAllowMeans(d: Dialect, ls: seq<string>)
    ensures (exists k: nat :: Decides(d, ls, k)) || ParseAllow(d, ls) == None
    ensures forall k: nat :: Decides(d, ls, k) ==>
              var asked := Asked(d, AllowEntries(d, ls[k]).value);
              ParseAllow(d, ls) == if asked == [] then None else Some(asked)
  {
    hide Trim, Asked, Split, Before;
    if ls != [] {
      ParseAllowMeans(d, ls[1..]);
      if Candidate(d, ls[0]) {
        assert Decides(d, ls, 0);
        forall k: nat | Decides(d, ls, k)
          ensures k == 0
        {
        }
      } else {
        assert ParseAllow(d, ls) == ParseAllow(d, ls[1..]);
        forall k: nat | Decides(d, ls, k)
          ensures k > 0 && Decides(d, ls[1..], k - 1)
        {
          DecidesTail(d, ls, k);
        }
        if k: nat :| Decides(d, ls[1..], k) {
          DecidesTail(d, ls, k + 1);
        }
      }
    }
  }

  lemma DecidesTail(d: Dialect, ls: seq<string>, k: nat)
    requires ls != [] && !Candidate(d, ls[0])
    ensures Decides(d, ls, k) <==> k > 0 && Decides(d, ls[1..], k - 1)
  {
    hide Candidate;
    assert forall j :: 0 <= j < |ls[1..]| ==> ls[1..][j] == ls[j + 1];
    if k > 0 && Decides(d, ls[1..], k - 1) {
      forall j | 0 <= j < k
        ensures !Candidate(d, ls[j])
      {
        assert j > 0 ==> ls[j] == ls[1..][j - 1];
      }
    }
    if Decides(d, ls, k) {
      forall j | 0 <= j < k - 1
        ensures !Candidate(d, ls[1..][j])
      {
      }
    }
  }

  lemma {:induction false} KeepMeans(surface: seq<string>, asked: seq<string>, x: string)
    ensures x in Keep(surface, asked) <==> x in surface && x in asked
  {
    if asked != [] {
      KeepMeans(surface, asked[1..], x);
    }
  }

  lemma SurfaceMeans(g: Guest, x: string)
    ensures x in Surface(g) <==> exists a :: a in g.actions && x == "action=" + a
  {
    if a :| a in g.actions && x == "action=" + a {
      var k :| 0 <= k < |g.actions| && g.actions[k] == a;
      assert Surface(g)[k] == x;
    }
    if x in Surface(g) {
      var k :| 0 <= k < |Surface(g)| && Surface(g)[k] == x;
      assert g.actions[k] in g.actions && x == "action=" + g.actions[k];
    }
  }

  /** The deciding line of the rules has an entry that asks for x. */
  ghost predicate LineAsks(d: Dialect, ls: seq<string>, x: string) {
    exists k: nat :: Decides(d, ls, k) && x in Asked(d, AllowEntries(d, ls[k]).value)
  }

  ghost predicate RulesAsk(d: Dialect, rules: bytes, x: string) {
    FromUtf8(rules).Some? && LineAsks(d, Lines(d, FromUtf8(rules).value), x)
  }

  lemma LineAsksMeans(d: Dialect, ls: seq<string>, x: string)
    ensures LineAsks(d, ls, x) <==> ParseAllow(d, ls).Some? && x in ParseAllow(d, ls).value
  {
    hide ParseAllow, Asked, AllowEntries;
    ParseAllowMeans(d, ls);
    if ParseAllow(d, ls).Some? && x in ParseAllow(d, ls).value {
      var k: nat :| Decides(d, ls, k);
      assert x in Asked(d, AllowEntries(d, ls[k]).value);
    }
  }

  /** The prefixes a registry guest goes by: of its own actions those that the rules ask for, or all of them when the
      rules ask for none. */
  lemma EffectivePrefixesMean(d: Dialect, g: Guest, rules: bytes, x: string)
    ensures x in EffectivePrefixes(d, g, rules) <==>
            x in Surface(g) && (RulesAsk(d, rules, x) || !(exists y :: y in Surface(g) && RulesAsk(d, rules, y)))
  {
    hide Surface, ParseAllow, Lines, FromUtf8, Keep, LineAsks;
    if FromUtf8(rules).Some? {
      var ls := Lines(d, FromUtf8(rules).value);
      var asked := ParseAllow(d, ls);
      forall y
        ensures LineAsks(d, ls, y) <==> asked.Some? && y in asked.value
        ensures asked.Some? ==> (y in Keep(Surface(g), asked.value) <==> y in Surface(g) && y in asked.value)
      {
        LineAsksMeans(d, ls, y);
        if asked.Some? {
          KeepMeans(Surface(g), asked.value, y);
        }
      }
      if asked.Some? && Keep(Surface(g), asked.value) != [] {
        assert Keep(Surface(g), asked.value)[0] in Keep(Surface(g), asked.value);
      }
    }
  }

  /** When a registry guest allows its inputs: they start with one of its actions, which the rules ask for if they ask for
      any. */
  lemma RegistryAllows(d: Dialect, sha: Digest, g: Guest, config: bytes, inputs: bytes, rules: bytes)
    ensures SaysAllow(RunRegistry(d, sha, g, config, inputs, rules)) <==>
      exists x :: x in Surface(g) && x <= InputText(inputs) &&
        (RulesAsk(d, rules, x) || !(exists y :: y in Surface(g) && RulesAsk(d, rules, y)))
  {
    hide SaysAllow, SaysDeny, RunRegistry, EffectivePrefixes, Surface, RulesAsk, InputText;
    RegistrySays(d, sha, g, config, inputs, rules);
    forall x
      ensures x in EffectivePrefixes(d, g, rules) <==>
              x in Surface(g) && (RulesAsk(d, rules, x) || !(exists y :: y in Surface(g) && RulesAsk(d, rules, y)))
    {
      EffectivePrefixesMean(d, g, rules, x);
    }
  }

  /** The surfaces of the built-in operators. */
  lemma BuiltinSurfaces(k: nat)
    requires k < 5
    ensures Surface(Builtin()[k]) ==
      if k == 0 then ComplianceSurface()
      else if k == 1 then ["action=vote.yes", "action=vote.no"]
      else if k == 2 then ["action=supplier.register", "action=purchaser.approve", "action=purchaser.reject"]
      else if k == 3 then ["action=trade.submit"]
      else []
  {
    ActionTexts();
    hide Action;
  }

  /** `DEFAULT_ALLOW_PREFIXES`. */
  function ComplianceSurface(): seq<string> {
    ["action=vote.yes", "action=vote.no", "action=supplier.register", "action=purchaser.approve",
     "action=purchaser.reject", "action=trade.submit"]
  }

  function CodeId(name: string): string {
    "lean-tee/" + name + "/lean-sp1/v1"
  }

  lemma ComplianceCode()
    ensures CodeId("compliance_operator") == "lean-tee/compliance_operator/lean-sp1/v1"
  {
  }

  lemma VotingCode()
    ensures CodeId("voting_operator") == "lean-tee/voting_operator/lean-sp1/v1"
  {
  }

  lemma OnboardingCode()
    ensures CodeId("onboarding_operator") == "lean-tee/onboarding_operator/lean-sp1/v1"
  {
  }

  lemma TradeCode()
    ensures CodeId("trade_operator") == "lean-tee/trade_operator/lean-sp1/v1"
  {
  }

  lemma RuntimeCode()
    ensures CodeId("guest_prog_runtime") == "lean-tee/guest_prog_runtime/lean-sp1/v1"
  {
  }

  /** The code of a built-in guest is named after it. */
  lemma BuiltinCodes(k: nat)
    requires k < 5
    ensures Builtin()[k].codeId == CodeId(Builtin()[k].guestId)
  {
    hide CodeId;
    ComplianceCode();
    VotingCode();
    OnboardingCode();
    TradeCode();
    RuntimeCode();
  }

  lemma ActionTexts()
    ensures Action("vote.yes") == "action=vote.yes" && Action("vote.no") == "action=vote.no"
    ensures Action("supplier.register") == "action=supplier.register"
    ensures Action("purchaser.approve") == "action=purchaser.approve"
    ensures Action("purchaser.reject") == "action=purchaser.reject"
    ensures Action("trade.submit") == "action=trade.submit"
  {
    VoteTexts();
    TradeTexts();
    hide Action;
  }

  lemma VoteTexts()
    ensures Action("vote.yes") == "action=vote.yes" && Action("vote.no") == "action=vote.no"
    ensures Action("trade.submit") == "action=trade.submit"
  {
  }

  lemma TradeTexts()
    ensures Action("supplier.register") == "action=supplier.register"
    ensures Action("purchaser.approve") == "action=purchaser.approve"
    ensures Action("purchaser.reject") == "action=purchaser.reject"
  {
  }

  // ---------- The measured guest ----------

  /** A measured guest runs a program only under its own measurement: the runtime's code hash, and the program's own hash as
      the configuration. */
  predicate ProgramMeasured(sha: Digest, code: bytes, config: bytes, program: bytes) {
    code == sha(Encode("lean-tee/guest_prog_runtime/lean-sp1/v1")) && config == sha(program)
  }

  /** The first guest of the list with this code hash, if any. */
  lemma {:induction false} FoundMeans(sha: Digest, gs: seq<Guest>, code: bytes)
    ensures FindByCode(sha, gs, code) == None <==> forall k :: 0 <= k < |gs| ==> CodeHash(sha, gs[k]) != code
    ensures forall k :: 0 <= k < |gs| ==>
              (CodeHash(sha, gs[k]) == code && (forall j :: 0 <= j < k ==> CodeHash(sha, gs[j]) != code) ==>
                 FindByCode(sha, gs, code) == Some(gs[k]))
  {
    hide CodeHash;
    if gs != [] {
      FoundMeans(sha, gs[1..], code);
      assert forall k :: 0 <= k < |gs[1..]| ==> gs[1..][k] == gs[k + 1];
      assert forall k :: 1 <= k < |gs| ==> gs[k] == gs[1..][k - 1];
    }
  }

  /** What the measured guest answers, with a program. */
  lemma MeasuredProgram(
      d: Dialect, sha: Digest, code: bytes, config: bytes, inputs: bytes, program: bytes, rules: bytes)
    requires program != []
    ensures
      var r := Measured(d, sha, code, config, inputs, program, rules);
      var parsed := Parse(d, program, 65536);
      (r.Ok? <==> ProgramMeasured(sha, code, config, program) && parsed.Ok?) &&
      (r.Ok? ==> r.value == Run(d, sha, parsed.value, inputs) && (SaysAllow(r.value) <==> Allowed(d, parsed.value, inputs))) &&
      (r == Err(WrongCodeHash) <==> code != sha(Encode("lean-tee/guest_prog_runtime/lean-sp1/v1"))) &&
      (r == Err(WrongConfigHash) <==>
         code == sha(Encode("lean-tee/guest_prog_runtime/lean-sp1/v1")) && config != sha(program)) &&
      (r.Err? && r.error.BadProgram? <==> ProgramMeasured(sha, code, config, program) && parsed.Err?) &&
      (r.Err? && r.error.BadProgram? ==> r.error == BadProgram(parsed.error))
  {
    hide Parse, Run, Encode, SaysAllow, Allowed, Builtin;
    var parsed := Parse(d, program, 65536);
    if parsed.Ok? {
      RunSays(d, sha, parsed.value, inputs);
    }
  }

  /** And without one. */
  lemma MeasuredRegistry(d: Dialect, sha: Digest, code: bytes, config: bytes, inputs: bytes, rules: bytes)
    ensures
      var r := Measured(d, sha, code, config, inputs, [], rules);
      var found := FindByCode(sha, Builtin(), code);
      var runtime := found.Some? && found.value.guestId == "guest_prog_runtime";
      (r.Ok? <==> found.Some? && !runtime && (rules == [] || config == sha(rules))) &&
      (r.Ok? ==> r.value == RunRegistry(d, sha, found.value, config, inputs, rules)) &&
      (r == Err(UnknownCodeHash) <==> found == None) && (r == Err(NeedsProgram) <==> runtime) &&
      (r == Err(WrongRulesHash) <==> found.Some? && !runtime && rules != [] && config != sha(rules))
  {
    hide RunRegistry, FindByCode, Builtin;
  }

  /** The configuration names the program: a measured guest that answers for two programs under one configuration shows a
      collision. */
  lemma MeasuredBindsProgram(
      d: Dialect, sha: Digest, code: bytes, config: bytes, inputs: bytes, program: bytes, rules: bytes, e: Dialect,
      code': bytes, inputs': bytes, program': bytes, rules': bytes)
    requires program != [] && program' != []
    requires Measured(d, sha, code, config, inputs, program, rules).Ok?
    requires Measured(e, sha, code', config, inputs', program', rules').Ok?
    ensures program == program' || Collision(sha, program, program')
    ensures code == code'
  {
    hide Measured, Parse, Run, Encode, SaysAllow, Allowed;
    MeasuredProgram(d, sha, code, config, inputs, program, rules);
    MeasuredProgram(e, sha, code', config, inputs', program', rules');
  }

  /** The fixed denial says deny. */
  lemma GuestErrorSaysDeny()
    ensures SaysDeny(GuestErrorOutput()) && !SaysAllow(GuestErrorOutput())
  {
    hide Encode;
    var no, yes := "decision=deny\nreason=", "decision=allow\nreason=";
    assert "decision=deny\nreason=guest_error\n" == no + "guest_error\n";
    TextPrefix(no, "guest_error\n");
    if SaysAllow(GuestErrorOutput()) {
      HeadChar(yes, no + "guest_error\n", 9);
    }
  }

  /** What the Lean guest commits for a program: the run, or the fixed denial. */
  lemma GuestCommits(sha: Digest, code: bytes, config: bytes, inputs: bytes, program: bytes, rules: bytes)
    requires program != []
    ensures
      var parsed := Parse(Lean, program, 65536);
      GuestRunLean(sha, code, config, inputs, program, rules) ==
        if ProgramMeasured(sha, code, config, program) && parsed.Ok? then Run(Lean, sha, parsed.value, inputs)
        else Encode("decision=deny\nreason=guest_error\n")
  {
    hide Measured, Parse, Run, Encode, SaysAllow, Allowed, ProgramMeasured;
    MeasuredProgram(Lean, sha, code, config, inputs, program, rules);
  }

  /** What the Lean guest commits announces an action as allowed only if it was measured and its policy allows it. */
  lemma GuestAllowsOnlyMeasured(
      sha: Digest, code: bytes, config: bytes, inputs: bytes, program: bytes, rules: bytes)
    requires program != []
    ensures SaysAllow(GuestRunLean(sha, code, config, inputs, program, rules)) <==>
            ProgramMeasured(sha, code, config, program) && Parse(Lean, program, 65536).Ok? &&
            Allowed(Lean, Parse(Lean, program, 65536).value, inputs)
  {
    hide Measured, Parse, Run, Encode, SaysAllow, SaysDeny, Allowed, GuestErrorOutput, ProgramMeasured;
    MeasuredProgram(Lean, sha, code, config, inputs, program, rules);
    GuestErrorSaysDeny();
  }
}
