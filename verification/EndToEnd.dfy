// From a receipt back to the policy: what an issued receipt announces was decided by the policy of its request.

module EndToEnd {
  import opened Wrappers
  import opened Text
  import opened Framing
  import opened Hex
  import opened Receipt
  import opened GuestProg
  import opened GuestRun
  import opened Decisions
  import opened Services
  import opened ServicesLaws
  import opened ProveLaws
  import opened RunLaws
  import opened AccessLaws
  import opened Worker

  // ---------- The decision of one request ----------

  /** The program allows the inputs: it parses within the default limit, and its rules are met. */
  predicate ProgramAllows(d: Dialect, program: bytes, inputs: bytes) {
    var parsed := Parse(d, program, 65536);
    parsed.Ok? && Allowed(d, parsed.value, inputs)
  }

  /** The registry guest allows the inputs: they start with one of its actions, which the rules ask for if they ask for
      any of them. */
  ghost predicate RegistryGuestAllows(d: Dialect, g: Guest, rules: bytes, inputs: bytes) {
    exists x :: x in Surface(g) && x <= InputText(inputs) &&
      (RulesAsk(d, rules, x) || !(exists y :: y in Surface(g) && RulesAsk(d, rules, y)))
  }

  lemma ParseErrorSaysDeny()
    ensures SaysDeny(ParseErrorOutput()) && !SaysAllow(ParseErrorOutput())
  {
    hide Encode;
    var no, yes := "decision=deny\nreason=", "decision=allow\nreason=";
    assert "decision=deny\nreason=parse_error\n" == no + "parse_error\n";
    TextPrefix(no, "parse_error\n");
    if SaysAllow(ParseErrorOutput()) {
      HeadChar(yes, no + "parse_error\n", 9);
    }
  }

  lemma RegistryDecides(d: Dialect, sha: Digest, g: Guest, config: bytes, inputs: bytes, rules: bytes)
    ensures SaysAllow(RunRegistry(d, sha, g, config, inputs, rules)) <==> RegistryGuestAllows(d, g, rules, inputs)
    ensures SaysDeny(RunRegistry(d, sha, g, config, inputs, rules)) <==> !RegistryGuestAllows(d, g, rules, inputs)
  {
    hide SaysAllow, SaysDeny, EffectivePrefixes, Surface, RulesAsk, InputText, StartsWithAny;
    RegistryAllows(d, sha, g, config, inputs, rules);
    RegistryDenies(d, sha, g, config, inputs, rules);
  }

  lemma RegistryDenies(d: Dialect, sha: Digest, g: Guest, config: bytes, inputs: bytes, rules: bytes)
    ensures SaysDeny(RunRegistry(d, sha, g, config, inputs, rules)) <==>
            !SaysAllow(RunRegistry(d, sha, g, config, inputs, rules))
  {
    hide SaysAllow, SaysDeny, Report, EffectivePrefixes, InputText, StartsWithAny;
    ReportSays(sha, StartsWithAny(EffectivePrefixes(d, g, rules), InputText(inputs)), config, inputs);
  }

  /** What the host decides on a request that it proves itself. */
  ghost predicate HostAllows(p: Prepared) {
    if p.guest.guestId == "guest_prog_runtime" then ProgramAllows(Lean, p.program, p.inputs)
    else RegistryGuestAllows(Lean, p.guest, p.rules, p.inputs)
  }

  lemma LocalSays(sha: Digest, p: Prepared)
    ensures SaysAllow(LocalOutputs(sha, p)) <==> HostAllows(p)
    ensures SaysDeny(LocalOutputs(sha, p)) <==> !HostAllows(p)
  {
    hide Parse, Run, RunRegistry, RegistryGuestAllows, SaysAllow, SaysDeny, Allowed, ParseErrorOutput;
    ParseErrorSaysDeny();
    var parsed := Parse(Lean, p.program, 65536);
    if parsed.Ok? {
      RunSays(Lean, sha, parsed.value, p.inputs);
    }
    RegistryDecides(Lean, sha, p.guest, p.measurement.config, p.inputs, p.rules);
  }

  // ---------- The sealed worker ----------

  /** The names the worker knows, white space around them ignored. */
  lemma WorkerNames(id: string)
    ensures
      var t := Trim(Rust, id);
      ResolveById(id) ==
        if t == "" || t == "compliance_operator" || t == "compliance_operator/v1" then Some(Builtin()[0])
        else if t == "voting_operator" then Some(Builtin()[1])
        else if t == "onboarding_operator" then Some(Builtin()[2])
        else if t == "trade_operator" then Some(Builtin()[3])
        else if t == "guest_prog_runtime" then Some(Builtin()[4])
        else None
  {
    hide Trim;
    var t := Trim(Rust, id);
    FindByName(if t == "" || t == "compliance_operator/v1" then "compliance_operator" else t);
  }

  /** What the worker answers and decides: a program decides by itself, whatever the secret; the rules of a registry guest
      are the secret, or the third blob when there is none, and their hash is its configuration. */
  lemma DispatchMeans(sha: Digest, guestId: string, public: bytes, secret: bytes, extra: bytes)
    ensures
      var r := Dispatch(sha, guestId, public, secret, extra);
      var parsed := Parse(Rust, extra, 65536);
      var rules := if secret != [] then secret else extra;
      if guestId == "guest_prog_runtime" then
        (r.Some? <==> extra != [] && parsed.Ok?) &&
        (r.Some? ==>
           r.value == Run(Rust, sha, parsed.value, public) &&
           (SaysAllow(r.value) <==> ProgramAllows(Rust, extra, public)) &&
           (SaysDeny(r.value) <==> !ProgramAllows(Rust, extra, public)))
      else
        (r.Some? <==> ResolveById(guestId).Some?) &&
        (r.Some? ==>
           var g := ResolveById(guestId).value;
           r.value == RunRegistry(Rust, sha, g, sha(rules), public, rules) &&
           (SaysAllow(r.value) <==> RegistryGuestAllows(Rust, g, rules, public)) &&
           (SaysDeny(r.value) <==> !RegistryGuestAllows(Rust, g, rules, public)))
  {
    hide Parse, Run, RunRegistry, RegistryGuestAllows, SaysAllow, SaysDeny, Allowed, ResolveById;
    var parsed := Parse(Rust, extra, 65536);
    if parsed.Ok? {
      RunSays(Rust, sha, parsed.value, public);
    }
    if ResolveById(guestId).Some? {
      var rules := if secret != [] then secret else extra;
      RegistryDecides(Rust, sha, ResolveById(guestId).value, sha(rules), public, rules);
    }
  }

  /** What the worker decides on a request with a secret. */
  ghost predicate WorkerAllows(p: Prepared) {
    if p.guest.guestId == "guest_prog_runtime" then ProgramAllows(Rust, p.program, p.inputs)
    else RegistryGuestAllows(Rust, p.guest, p.secret, p.inputs)
  }

  lemma BuiltinByName(g: Guest)
    requires g in Builtin()
    ensures ResolveById(g.guestId) == Some(g)
  {
    hide Trim;
    BuiltinNamesTrimmed(g);
    TrimFixed(Rust, g.guestId);
    FindByName(g.guestId);
  }

  lemma BuiltinNamesTrimmed(g: Guest)
    requires g in Builtin()
    ensures Trimmed(Rust, g.guestId)
  {
  }

  lemma SealedSays(sha: Digest, c: Control, p: Prepared)
    requires Results32(sha) && SmallRequest(p) && p.secret != [] && Anchored(sha, c, p) && RunSealed(sha, p).Some?
    ensures
      var sealed := RunSealed(sha, p).value;
      sealed.secretDigest == sha(p.secret) && (SaysAllow(sealed.outputs) <==> WorkerAllows(p)) &&
      (SaysDeny(sealed.outputs) <==> !WorkerAllows(p))
  {
    hide Dispatch, RunSealed, Results32, SaysAllow, SaysDeny, ProgramAllows, RegistryGuestAllows, Builtin, CodeHash, Parse;
    WorkerAnswers(sha, p);
    DispatchMeans(sha, p.guest.guestId, p.inputs, p.secret, Extra(p));
    BuiltinByName(p.guest);
  }

  // ---------- The receipt ----------

  /** The inputs of a sealed receipt: the public ones as text, ended by a line break, and the digest line. */
  lemma DigestLine(text: string, digestHex: string)
    ensures WithDigest(Encode(text), digestHex) ==
      Encode((if text == "" || text[|text| - 1] == '\n' then text else text + "\n") +
             "secret_digest=" + digestHex + "\n")
  {
    hide Encode;
    InputTextOfEncode(text);
  }

  /** Result hash and mock proof over the receipt's own fields, and the job id over nonce and result hash. */
  lemma ReceiptHashes(sha: Digest, r: TeeReceipt)
    ensures r.resultHash == ComputeResultHash(sha, r) <==> ResultHashMet(sha, r)
    ensures r.proofRef == MockProofOf(sha, r.measurement, r.inputs, r.outputs) <==> MockProofMet(sha, r)
    ensures JobId(sha, r) == HexEncode(sha(Concat([r.nonce, r.resultHash])))
  {
    hide Encode, Concat, HexEncode;
  }

  /** The nonce of a request without one is the hash of inputs and configuration. */
  predicate NonceMet(sha: Digest, p: Prepared, r: TeeReceipt) {
    r.nonce == if p.nonce != [] then p.nonce else sha(Concat([r.inputs, r.measurement.config]))
  }

  /** What a sealed receipt shows of the worker's answer. */
  predicate SealedAs(p: Prepared, sealed: Sealed, r: TeeReceipt) {
    r.inputs == WithDigest(p.inputs, r.secretDigestHex) && r.outputs == sealed.outputs && r.confidentiality == "local" &&
    r.secretDigestHex == HexEncode(sealed.secretDigest)
  }

  /** The receipt for this request, proved in process or, with a secret, sealed. */
  ghost predicate IssuedFor(sha: Digest, p: Prepared, worker: Option<Sealed>, r: TeeReceipt) {
    && r.measurement == p.measurement && NonceMet(sha, p, r)
    && ResultHashMet(sha, r) && MockProofMet(sha, r) && r.suite == "sha256+mock"
    && if p.secret == [] then
         r.inputs == p.inputs && r.outputs == LocalOutputs(sha, p) && r.confidentiality == "" && r.secretDigestHex == ""
       else
         worker.Some? && SealedAs(p, worker.value, r)
  }

  lemma SuiteOfMock()
    ensures SuiteOr(SuiteId(Sha256Mock)) == "sha256+mock"
  {
    assert Trimmed(Lean, "sha256+mock");
    TrimFixed(Lean, "sha256+mock");
  }

  /** What Execute puts into a receipt, field by field. */
  lemma CompleteIssues(sha: Digest, c: Control, p: Prepared, worker: Option<Sealed>)
    requires Complete(sha, c, p, InProcess, worker).Ok?
    ensures IssuedFor(sha, p, worker, Complete(sha, c, p, InProcess, worker).value)
  {
    hide LooksSafe, ResultHashMet, MockProofMet, LocalOutputs, WithDigest, HexEncode, SuiteOr, Concat, ResultPreimage,
      MockPreimage, SuiteId;
    SuiteOfMock();
    ReceiptHashes(sha, Complete(sha, c, p, InProcess, worker).value);
  }

  lemma IssueFields(sha: Digest, p: Prepared, d: Proved)
    ensures
      var r := Issue(sha, p, d);
      r.measurement == p.measurement && r.inputs == d.inputs && r.outputs == d.response.outputs &&
      NonceMet(sha, p, r) && ResultHashMet(sha, r) && r.proofRef == d.response.proofRef &&
      r.suite == (if Trim(Lean, d.response.suite) == "" then "sha256+mock" else Trim(Lean, d.response.suite)) &&
      r.confidentiality == d.confidentiality && r.secretDigestHex == d.digestHex
  {
    hide ResultHashMet, Concat, ResultPreimage, Trim;
    ReceiptHashes(sha, Issue(sha, p, d));
  }

  /** A remote prover's answer goes into the receipt as it is, except that blanks around the suite are dropped and no suite
      means the mock suite. */
  lemma CompleteRemote(sha: Digest, c: Control, p: Prepared, answer: Option<ProveResponse>, worker: Option<Sealed>)
    requires p.secret == []
    ensures
      match Complete(sha, c, p, Remote(answer), worker)
      case Err(e) => e == ProverFailed && answer == None
      case Ok(r) =>
        answer.Some? && r.measurement == p.measurement && r.inputs == p.inputs && r.outputs == answer.value.outputs &&
        NonceMet(sha, p, r) && ResultHashMet(sha, r) && r.proofRef == answer.value.proofRef &&
        r.suite == (if Trim(Lean, answer.value.suite) == "" then "sha256+mock" else Trim(Lean, answer.value.suite)) &&
        r.confidentiality == "" && r.secretDigestHex == ""
  {
    hide ResultHashMet, NonceMet, Trim, LooksSafe, Issue;
    if answer.Some? {
      var d := Proved(p.inputs, answer.value, "", "");
      IssueFields(sha, p, d);
      NoSecretToLeak(Issue(sha, p, d), p.secret);
    }
  }

  // ---------- Over whole runs ----------

  /** A server that proves in process, with the repository's own worker for secrets. */
  ghost predicate OwnRun(sha: Digest, ss: seq<State>, ls: seq<Label>)
    requires |ss| == |ls| + 1
  {
    forall k :: 0 <= k < |ls| && ls[k].End? && ls[k].id in ss[k].open ==>
      var p := ss[k].open[ls[k].id];
      ls[k].prover == InProcess && ls[k].worker == RunSealed(sha, p) && SmallRequest(p)
  }

  /** What the request's policy says about its inputs. */
  ghost predicate PolicyAllows(p: Prepared) {
    if p.secret == [] then HostAllows(p) else WorkerAllows(p)
  }

  /** The receipt is for this request, which its caller was entitled to; it is measured by the request's program or rules
      and announces what the request's policy decides. */
  ghost predicate EarnedBy(sha: Digest, c: Control, r: TeeReceipt, p: Prepared) {
    && Authorized(sha, c, p) && Anchored(sha, c, p) && IssuedFor(sha, p, RunSealed(sha, p), r)
    && (SaysAllow(r.outputs) <==> PolicyAllows(p)) && (SaysDeny(r.outputs) <==> !PolicyAllows(p))
  }

  ghost predicate Earned(sha: Digest, c: Control, r: TeeReceipt) {
    exists p :: EarnedBy(sha, c, r, p)
  }

  ghost predicate AllEarned(sha: Digest, c: Control, s: State) {
    (forall id :: id in s.open ==> Authorized(sha, c, s.open[id]) && Anchored(sha, c, s.open[id])) &&
    forall r :: r in s.issued ==> Earned(sha, c, r)
  }

  lemma EndEarns(sha: Digest, c: Control, p: Prepared)
    requires Results32(sha) && Authorized(sha, c, p) && Anchored(sha, c, p) && SmallRequest(p)
    requires Complete(sha, c, p, InProcess, RunSealed(sha, p)).Ok?
    ensures Earned(sha, c, Complete(sha, c, p, InProcess, RunSealed(sha, p)).value)
  {
    hide Complete, Results32, Authorized, Anchored, SmallRequest, RunSealed, ResultHashMet, MockProofMet, NonceMet,
      SaysAllow, SaysDeny, HostAllows, WorkerAllows, LocalOutputs, WithDigest, HexEncode;
    var r := Complete(sha, c, p, InProcess, RunSealed(sha, p)).value;
    CompleteIssues(sha, c, p, RunSealed(sha, p));
    if p.secret == [] {
      LocalSays(sha, p);
    } else {
      SealedSays(sha, c, p);
    }
    assert EarnedBy(sha, c, r, p);
  }

  /** In every run of such a server, whatever the interleaving, every receipt ever issued is for a request whose caller was
      entitled to it, and announces what the program or the rules of that request, or its secret, decide. */
  lemma {:induction false} ReceiptsAreEarned(sha: Digest, c: Control, ss: seq<State>, ls: seq<Label>, k: nat)
    requires Results32(sha) && Services.IsRun(sha, c, ss, ls) && OwnRun(sha, ss, ls) && k < |ss|
    ensures AllEarned(sha, c, ss[k])
  {
    hide Prepare, LoadCheck, Complete, Authorized, Anchored, Earned, JobId, Results32, RunSealed, SmallRequest;
    if k > 0 {
      ReceiptsAreEarned(sha, c, ss, ls, k - 1);
      var s, l := ss[k - 1], ls[k - 1];
      assert Step(sha, c, s, l, ss[k]);
      match l {
        case Load(raw) =>
        case Start(id, req, now) =>
          if Prepare(sha, c, s.programs, req).Ok? {
            PreparedIsAuthorized(sha, c, s.programs, req);
            PreparedShape(sha, c, s.programs, req);
          }
        case End(id, prover, worker) =>
          if Complete(sha, c, s.open[id], prover, worker).Ok? {
            EndEarns(sha, c, s.open[id]);
          }
      }
    }
  }

  // ---------- Which rules decide a sealed request ----------

  /** The worker decides by the secret and binds its hash in the reason; the receipt is measured by the configuration of the
      request.  The two are one exactly when the request leaves its configuration to the secret, or both hash alike. */
  lemma SealedRulesMeasured(sha: Digest, c: Control, programs: map<string, bytes>, req: ExecuteRequest)
    requires Results32(sha) && Prepare(sha, c, programs, req).Ok? && req.secretInputs != [] && !AsksProgram(req)
    requires ResolveGuest(req.guestId) != Some(Runtime())
    requires SmallRequest(Prepare(sha, c, programs, req).value) && RunSealed(sha, Prepare(sha, c, programs, req).value).Some?
    ensures
      var p := Prepare(sha, c, programs, req).value;
      RunSealed(sha, p).value.outputs ==
        Report(sha, RegistryGuestAllows(Rust, p.guest, req.secretInputs, req.inputs), sha(req.secretInputs), req.inputs) &&
      (p.measurement.config == sha(req.secretInputs) <==>
         req.configHash == [] || sha(req.configHash) == sha(req.secretInputs))
  {
    hide Prepare, Dispatch, RunSealed, Results32, Report, ProgramAllows, RegistryGuestAllows, Builtin, CodeHash, Parse,
      ResolveGuest, Entitled, MayRun, SaysAllow, SaysDeny;
    PrepareOutcome(sha, c, programs, req);
    PreparedShape(sha, c, programs, req);
    var p := Prepare(sha, c, programs, req).value;
    WorkerAnswers(sha, p);
    RuntimeById(p.guest);
    BuiltinByName(p.guest);
    DispatchMeans(sha, p.guest.guestId, p.inputs, p.secret, Extra(p));
    RegistryReports(Rust, sha, p.guest, sha(p.secret), p.inputs, p.secret);
  }

  lemma RuntimeById(g: Guest)
    requires g in Builtin() && g != Runtime()
    ensures g.guestId != "guest_prog_runtime"
  {
    FindByName(g.guestId);
  }

  lemma RegistryReports(d: Dialect, sha: Digest, g: Guest, config: bytes, inputs: bytes, rules: bytes)
    ensures RunRegistry(d, sha, g, config, inputs, rules) ==
            Report(sha, RegistryGuestAllows(d, g, rules, inputs), config, inputs)
  {
    hide SaysAllow, SaysDeny, Report, EffectivePrefixes, RegistryGuestAllows, InputText, StartsWithAny;
    RegistryDecides(d, sha, g, config, inputs, rules);
    ReportSays(sha, StartsWithAny(EffectivePrefixes(d, g, rules), InputText(inputs)), config, inputs);
  }

  // ---------- What a proof binds ----------

  /** Two mock receipts that Accept says yes to with one proof are about one measurement, one input and one output, or the
      two preimages shown here collide: nobody can put other outputs beside an old proof. */
  lemma ProofBindsOutputs(
      sha: Digest, c: Control, policy: seq<Measurement>, trustProofOk: bool, jobs: map<string, TeeReceipt>,
      req: AcceptRequest, req': AcceptRequest)
    requires Accept(sha, c, policy, trustProofOk, jobs, req) == Accepted
    requires Accept(sha, c, policy, trustProofOk, jobs, req') == Accepted
    requires IsMock(req.receipt) && IsMock(req'.receipt) && req.receipt.proofRef == req'.receipt.proofRef
    requires SmallReceipt(req.receipt) && SmallReceipt(req'.receipt)
    ensures
      var r, s := req.receipt, req'.receipt;
      (r.measurement == s.measurement && r.inputs == s.inputs && r.outputs == s.outputs) ||
      Collision(sha, MockPreimage(Sha256Mock, ClaimOf(r)), MockPreimage(Sha256Mock, ClaimOf(s)))
  {
    hide Accept, MockProofMet, ResultHashMet, Stored, KeyFits, ConfidentialityMet, MeasurementMet, MockPreimage, SmallClaim;
    var r, s := req.receipt, req'.receipt;
    AcceptOutcomeMeans(sha, c, policy, trustProofOk, jobs, req);
    AcceptOutcomeMeans(sha, c, policy, trustProofOk, jobs, req');
    MockProofIs(sha, r);
    MockProofIs(sha, s);
    if MockPreimage(Sha256Mock, ClaimOf(r)) == MockPreimage(Sha256Mock, ClaimOf(s)) {
      MockPreimageInjective(Sha256Mock, ClaimOf(r), ClaimOf(s));
    }
  }

  lemma MockProofIs(sha: Digest, r: TeeReceipt)
    ensures MockProofMet(sha, r) <==> r.proofRef == sha(MockPreimage(Sha256Mock, ClaimOf(r)))
  {
    hide Encode, Concat;
  }
}
