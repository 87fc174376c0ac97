// Requests that reach the exceptional side of the server's theorems.

module Witnesses {
  import opened Wrappers
  import opened Text
  import opened Framing
  import opened Hex
  import opened Receipt
  import opened GuestProg
  import opened GuestProgLaws
  import opened GuestRun
  import opened Quotas
  import opened Services
  import opened ServicesLaws
  import opened RunLaws
  import opened ProveLaws
  import opened SecretLaws
  import opened Worker
  import opened Decisions
  import opened EndToEnd

  /** A caller whom neither key nor tenant list keeps out. */
  predicate Admits(c: Control) {
    ApiKeyOk(c) && c.acl.tenants == []
  }

  // ---------- A nonce that is a job id ----------

  /** A request for the default guest whose inputs are a receipt's nonce and whose configuration is its result preimage. */
  function EchoRequest(r: TeeReceipt): ExecuteRequest {
    ExecuteRequest([], ResultPreimage(Sha256Mock, ClaimOf(r)), r.nonce, [], [], "", [])
  }

  /** The nonce the server computes for it is the hash that is the receipt's job id. */
  lemma NonceCanBeJobId(sha: Digest, c: Control, programs: map<string, bytes>, r: TeeReceipt, worker: Option<Sealed>)
    requires Admits(c) && r.resultHash == ComputeResultHash(sha, r)
    ensures Prepare(sha, c, programs, EchoRequest(r)).Ok?
    ensures
      var p := Prepare(sha, c, programs, EchoRequest(r)).value;
      Complete(sha, c, p, InProcess, worker).Ok? &&
      HexEncode(Complete(sha, c, p, InProcess, worker).value.nonce) == JobId(sha, r)
  {
    hide Prepare, Complete, ResolveGuest, Builtin, ResultPreimage, HexEncode, Concat, ApiKeyOk, ProveLocal, BuildReceipt;
    var req := EchoRequest(r);
    DefaultGuest();
    PrepareRegistry(sha, c, programs, req, ResolveGuest([]).value);
    var p := Prepare(sha, c, programs, req).value;
    PublicCompletes(sha, c, p, worker);
    IssuedNonce(sha, p, Proved(p.inputs, ProveLocal(sha, p), "", ""));
  }

  lemma IssuedNonce(sha: Digest, p: Prepared, d: Proved)
    ensures Issue(sha, p, d).nonce == if p.nonce == [] then sha(NoncePreimage(d.inputs, p.measurement.config)) else p.nonce
  {
    hide NoncePreimage, ResultPreimage, SuiteOr;
  }

  // ---------- A program over the default limit ----------

  /** For every size above the default limit there is a program that LoadProgram and Execute accept under a limit of that
      size; the host runs it as a parse error and the measured guest as a guest error. */
  lemma LongProgramExample(sha: Digest, c: Control, programs: map<string, bytes>, n: nat, inputs: bytes)
    requires Admits(c) && c.acl.loadTenants == [] && DEFAULT_MAX_PROGRAM_BYTES < 31 + n <= c.maxProgramBytes
    ensures
      var raw := Encode(Commented(n));
      var req := ExecuteRequest([], [], inputs, [], raw, "", []);
      |raw| == 31 + n && LoadCheck(c, raw) == None && Prepare(sha, c, programs, req).Ok? &&
      var p := Prepare(sha, c, programs, req).value;
      LocalOutputs(sha, p) == ParseErrorOutput() &&
      GuestRunLean(sha, p.measurement.code, p.measurement.config, p.inputs, p.program, p.rules) == GuestErrorOutput()
  {
    hide ParseText, Commented, Encode, FromUtf8, CodeHash, Builtin, Run, ParseErrorOutput, GuestErrorOutput, ApiKeyOk,
      ResolveGuest;
    CommentedReads(Lean, n);
    FromUtf8OfEncode(Commented(n));
    RuntimeName();
  }

  lemma RuntimeName()
    ensures Runtime().guestId == "guest_prog_runtime"
  {
  }

  // ---------- The program runtime without a program ----------

  lemma RuntimeWithoutProgram(sha: Digest, c: Control, programs: map<string, bytes>, config: bytes, inputs: bytes)
    requires Admits(c) && CodesDistinct(sha)
    ensures
      var req := ExecuteRequest(Encode(Runtime().guestId), config, inputs, [], [], "", []);
      Prepare(sha, c, programs, req).Ok? &&
      var p := Prepare(sha, c, programs, req).value;
      !Portable(p) && LocalOutputs(sha, p) !=
        GuestRunLean(sha, p.measurement.code, p.measurement.config, p.inputs, p.program, p.rules)
  {
    hide Prepare, ResolveGuest, Runtime, Encode, LocalOutputs, GuestRunLean, CodesDistinct, ApiKeyOk, CodeHash;
    var req := ExecuteRequest(Encode(Runtime().guestId), config, inputs, [], [], "", []);
    RuntimeByName();
    PrepareRegistry(sha, c, programs, req, Runtime());
    HostMatchesGuest(sha, c, programs, req);
  }

  // ---------- A configuration taken from the secret ----------

  lemma SecretConfiguration(sha: Digest, c: Control, programs: map<string, bytes>, inputs: bytes, secret: bytes)
    requires Admits(c) && c.local && !c.profileV2 && c.acl.secretTenants == [] && secret != []
    ensures
      var req := ExecuteRequest([], [], inputs, [], [], "", secret);
      Prepare(sha, c, programs, req).Ok? &&
      var p := Prepare(sha, c, programs, req).value;
      Measure(sha, req.guestId, req.configHash, p.program, c.maxProgramBytes) != Ok(p.measurement) ||
      Collision(sha, secret, [])
  {
    hide Prepare, ResolveGuest, Builtin, Measure, ApiKeyOk, CodeHash;
    var req := ExecuteRequest([], [], inputs, [], [], "", secret);
    DefaultGuest();
    PrepareRegistry(sha, c, programs, req, ResolveGuest([]).value);
    MeasurePredicts(sha, c, programs, req);
  }

  // ---------- A secret that is in the public inputs already ----------

  /** The secret is one byte of the two-byte letter in the public inputs: the receipt that the repository's worker seals
      shows it. */
  lemma SecretAlreadyPublic(sha: Digest, c: Control, programs: map<string, bytes>)
    requires Results32(sha) && Admits(c) && c.local && !c.profileV2 && c.acl.secretTenants == [] && c.hasWorker
    ensures
      var req := ExecuteRequest([], [], Encode("\U{E9}"), [], [], "", [0xA9]);
      Prepare(sha, c, programs, req).Ok? &&
      var p := Prepare(sha, c, programs, req).value;
      Complete(sha, c, p, InProcess, RunSealed(sha, p)).Ok? &&
      Occurs(Complete(sha, c, p, InProcess, RunSealed(sha, p)).value.inputs, [0xA9])
  {
    hide Prepare, Complete, ResolveGuest, Builtin, RunSealed, Dispatch, WithDigest, HexEncode, Encode, FromUtf8, Occurs,
      ApiKeyOk, Results32, CodeHash, Report;
    var req := ExecuteRequest([], [], Encode("\U{E9}"), [], [], "", [0xA9]);
    DefaultGuest();
    PrepareRegistry(sha, c, programs, req, ResolveGuest([]).value);
    var p := Prepare(sha, c, programs, req).value;
    LetterBytes();
    DefaultAnswers(sha, p);
    SealedIssued(sha, c, p, InProcess, RunSealed(sha, p));
    LoneByteIsNotText();
    LetterShows(HexEncode(RunSealed(sha, p).value.secretDigest));
  }

  lemma DefaultAnswers(sha: Digest, p: Prepared)
    requires Results32(sha) && SmallRequest(p) && |p.inputs| <= 2 && |p.secret| == 1
    requires Some(p.guest) == ResolveGuest([]) && p.program == []
    ensures RunSealed(sha, p).Some?
  {
    hide RunSealed, RunRegistry, ResolveGuest, Builtin, Results32;
    DefaultGuest();
    CompliantIsBuiltin();
    BuiltinByName(p.guest);
    WorkerAnswers(sha, p);
    RuntimeName();
    assert "compliance_operator"[0] != "guest_prog_runtime"[0];
  }

  lemma CompliantIsBuiltin()
    ensures Builtin()[0] in Builtin()
  {
  }

  lemma LetterBytes()
    ensures Encode("\U{E9}") == [0xC3, 0xA9]
  {
    assert Encode("\U{E9}"[1..]) == [];
  }

  lemma LoneByteIsNotText()
    ensures FromUtf8([0xA9]) == None
  {
  }

  lemma LetterShows(digestHex: string)
    ensures Occurs(WithDigest(Encode("\U{E9}"), digestHex), [0xA9])
  {
    hide Encode, FromUtf8, At;
    InputTextOfEncode("\U{E9}");
    LetterBytes();
    var rest := "\nsecret_digest=" + digestHex + "\n";
    assert "\U{E9}" + "\n" + "secret_digest=" + digestHex + "\n" == "\U{E9}" + rest;
    EncodeAppend("\U{E9}", rest);
    SecondByte(Encode(rest));
  }

  lemma SecondByte(rest: bytes)
    ensures At([0xC3, 0xA9] + rest, 1, [0xA9])
  {
  }

  // ---------- A secret that overrides the measured rules ----------

  lemma OneAllowLine(d: Dialect)
    ensures ParseAllow(d, Lines(d, "allow=vote.yes")) == Some(["action=vote.yes"])
  {
    hide Lines, Clean, Split, ParseAllow, Asked, Value;
    var text := "allow=vote.yes";
    SplitFree(text, '\n');
    CleanLines(d, text);
    ParseAllowOfClean(d, Lines(d, text));
    ParseAllowOfClean(d, Split(text, '\n'));
    ReadAllowLineOnly(d);
  }

  lemma ReadAllowLineOnly(d: Dialect)
    ensures ParseAllow(d, ["allow=vote.yes"]) == Some(["action=vote.yes"])
  {
    hide Asked, Value, Split, Trim;
    TrimFixed(d, "allow=vote.yes");
    assert "allow=vote.yes" == Key(AllowField) + "vote.yes";
    NoAllowInAction();
    PlainValue(d, AllowField, "vote.yes");
    AskedOf(d, "vote.yes");
  }

  /** The rules "allow=vote.yes" keep the compliance operator from allowing "action=vote.no", in both languages. */
  lemma MeasuredRulesDeny(d: Dialect, g: Guest)
    requires Surface(g) == ComplianceSurface()
    ensures !RegistryGuestAllows(d, g, Encode("allow=vote.yes"), Encode("action=vote.no"))
  {
    hide Encode, RunRegistry, ParseAllow, Lines, FromUtf8, InputText, RegistryGuestAllows, SaysAllow, SaysDeny, Surface, Keep;
    var rules, inputs := Encode("allow=vote.yes"), Encode("action=vote.no");
    FromUtf8OfEncode("allow=vote.yes");
    InputTextOfEncode("action=vote.no");
    OneAllowLine(d);
    assert ComplianceSurface()[0] == "action=vote.yes";
    KeepOne(Surface(g), "action=vote.yes");
    assert EffectivePrefixes(d, g, rules) == ["action=vote.yes"];
    assert "action=vote.yes"[12] != "action=vote.no"[12];
    RegistryDecides(d, x => x, g, [], inputs, rules);
    RegistrySays(d, x => x, g, [], inputs, rules);
  }

  /** A secret that is not text leaves it its whole surface. */
  lemma SecretAllows(g: Guest)
    requires Surface(g) == ComplianceSurface()
    ensures RegistryGuestAllows(Rust, g, [0xFF], Encode("action=vote.no"))
  {
    hide Encode, FromUtf8, InputText, Surface;
    LoneFf();
    InputTextOfEncode("action=vote.no");
    assert ComplianceSurface()[1] == "action=vote.no";
    assert "action=vote.no" in Surface(g);
  }

  lemma LoneFf()
    ensures FromUtf8([0xFF]) == None
  {
  }

  lemma DefaultSurface()
    ensures ResolveGuest([]).Some? && ResolveGuest([]).value in Builtin() && ResolveGuest([]).value != Runtime()
    ensures Surface(ResolveGuest([]).value) == ComplianceSurface()
  {
    hide Surface;
    DefaultGuest();
    CompliantIsBuiltin();
    BuiltinSurfaces(0);
    RuntimeName();
    assert "compliance_operator"[0] != "guest_prog_runtime"[0];
  }

  /** A request that names rules and sends a secret besides. */
  function OverridingRequest(): ExecuteRequest {
    ExecuteRequest([], Encode("allow=vote.yes"), Encode("action=vote.no"), [], [], "", [0xFF])
  }

  /** The sealed receipt announces an action as allowed, measured by rules that deny it. */
  lemma SecretOverridesRules(sha: Digest, c: Control, programs: map<string, bytes>)
    requires Results32(sha) && Admits(c) && c.local && !c.profileV2 && c.acl.secretTenants == [] && c.hasWorker
    ensures Prepare(sha, c, programs, OverridingRequest()).Ok?
    ensures
      var p := Prepare(sha, c, programs, OverridingRequest()).value;
      Complete(sha, c, p, InProcess, RunSealed(sha, p)).Ok? &&
      var r := Complete(sha, c, p, InProcess, RunSealed(sha, p)).value;
      SaysAllow(r.outputs) && r.measurement.config == sha(Encode("allow=vote.yes")) &&
      forall d :: !RegistryGuestAllows(d, p.guest, Encode("allow=vote.yes"), p.inputs)
  {
    hide Prepare, Complete, ResolveGuest, Builtin, RunSealed, HexEncode, Encode, FromUtf8, ApiKeyOk, Results32, CodeHash,
      SaysAllow, SaysDeny, RegistryGuestAllows, SmallRequest, WithDigest, Anchored, WorkerAllows, Surface;
    var req := OverridingRequest();
    DefaultSurface();
    PrepareRegistry(sha, c, programs, req, ResolveGuest([]).value);
    var p := Prepare(sha, c, programs, req).value;
    PreparedShape(sha, c, programs, req);
    LoneFf();
    EncodeBound("action=vote.no");
    TextSize("allow=vote.yes");
    SmallOverriding(p);
    DefaultWorkerAllows(sha, p);
    SealedSays(sha, c, p);
    SealedIssued(sha, c, p, InProcess, RunSealed(sha, p));
    CompleteIssues(sha, c, p, RunSealed(sha, p));
    MeasuredRulesDeny(Rust, p.guest);
    MeasuredRulesDeny(Lean, p.guest);
    BothDialects(p.guest, Encode("allow=vote.yes"), p.inputs);
  }

  lemma BothDialects(g: Guest, rules: bytes, inputs: bytes)
    requires !RegistryGuestAllows(Rust, g, rules, inputs) && !RegistryGuestAllows(Lean, g, rules, inputs)
    ensures forall d :: !RegistryGuestAllows(d, g, rules, inputs)
  {
    hide RegistryGuestAllows;
    forall d
      ensures !RegistryGuestAllows(d, g, rules, inputs)
    {
      match d {
        case Rust =>
        case Lean =>
      }
    }
  }

  lemma SmallOverriding(p: Prepared)
    requires |p.inputs| <= 1000 && |p.secret| == 1 && p.program == []
    ensures SmallRequest(p)
  {
  }

  lemma DefaultWorkerAllows(sha: Digest, p: Prepared)
    requires Results32(sha) && SmallRequest(p) && |p.inputs| <= 1000 && p.program == []
    requires Some(p.guest) == ResolveGuest([]) && p.secret == [0xFF] && p.inputs == Encode("action=vote.no")
    ensures RunSealed(sha, p).Some? && WorkerAllows(p)
  {
    hide RunSealed, RunRegistry, ResolveGuest, Builtin, Results32, RegistryGuestAllows, Encode, Surface, FromUtf8;
    DefaultSurface();
    BuiltinByName(p.guest);
    RuntimeById(p.guest);
    WorkerAnswers(sha, p);
    SecretAllows(p.guest);
  }

  // ---------- Labels replaced ----------

  /** A request that repeats the public inputs of a sealed receipt, and names the secret as its configuration if the first
      request took it from there. */
  function Unsealed(req: ExecuteRequest, r: TeeReceipt): ExecuteRequest {
    req.(secretInputs := [], inputs := r.inputs, nonce := r.nonce,
         configHash := if req.configHash == [] then req.secretInputs else req.configHash)
  }

  lemma UnsealedPrepares(
      sha: Digest, c: Control, programs: map<string, bytes>, req: ExecuteRequest, r: TeeReceipt)
    requires Prepare(sha, c, programs, req).Ok? && req.secretInputs != []
    ensures
      var p := Prepare(sha, c, programs, req).value;
      Prepare(sha, c, programs, Unsealed(req, r)) == Ok(p.(secret := [], inputs := r.inputs, nonce := r.nonce))
  {
    hide Parse, CodeHash, Runtime, ResolveGuest, AclAllows, ApiKeyOk;
  }

  /** For a worker whose answer is what the host computes on the inputs with the digest line, which the repository's worker
      gives only at a collision: the public request yields a receipt with the job id and the evidence of the sealed one,
      which it replaces in the store, and without its label. */
  lemma SealedLabelReplaced(
      sha: Digest, c: Control, programs: map<string, bytes>, req: ExecuteRequest, prover: Prover, worker: Option<Sealed>,
      r: TeeReceipt)
    requires Prepare(sha, c, programs, req).Ok? && req.secretInputs != []
    requires Complete(sha, c, Prepare(sha, c, programs, req).value, prover, worker) == Ok(r) && r.nonce != []
    requires Prepare(sha, c, programs, Unsealed(req, r)).Ok? ==>
      LocalOutputs(sha, Prepare(sha, c, programs, Unsealed(req, r)).value) == r.outputs
    ensures Prepare(sha, c, programs, Unsealed(req, r)).Ok?
    ensures
      var s := PublicReceipt(sha, Prepare(sha, c, programs, Unsealed(req, r)).value);
      JobId(sha, s) == JobId(sha, r) && SameEvidence(s, r) &&
      r.confidentiality == "local" && s.confidentiality == ""
  {
    hide Prepare, Complete, LocalOutputs, HexEncode, Concat, ResultPreimage, MockPreimage, SuiteOr, SuiteId, Unsealed;
    UnsealedPrepares(sha, c, programs, req, r);
    PreparedSecret(sha, c, programs, req);
    var p := Prepare(sha, c, programs, req).value;
    SealedReceipt(sha, c, p, prover, worker, r);
    PublicFields(sha, p.(secret := [], inputs := r.inputs, nonce := r.nonce));
  }

  /** The fields of a sealed receipt. */
  lemma SealedReceipt(
      sha: Digest, c: Control, p: Prepared, prover: Prover, worker: Option<Sealed>, r: TeeReceipt)
    requires p.secret != [] && Complete(sha, c, p, prover, worker) == Ok(r)
    ensures r.measurement == p.measurement && r.confidentiality == "local"
    ensures r.proofRef == MockProofOf(sha, r.measurement, r.inputs, r.outputs)
    ensures r.resultHash == ComputeResultHash(sha, r)
  {
    hide LooksSafe, WithDigest, HexEncode, MockPreimage, ResultPreimage, NoncePreimage, SuiteOr, SuiteId;
  }

  lemma PublicFields(sha: Digest, p: Prepared)
    requires p.nonce != []
    ensures
      var s := PublicReceipt(sha, p);
      s.measurement == p.measurement && s.inputs == p.inputs && s.nonce == p.nonce &&
      s.outputs == LocalOutputs(sha, p) && s.confidentiality == "" &&
      s.proofRef == MockProofOf(sha, s.measurement, s.inputs, s.outputs) && s.resultHash == ComputeResultHash(sha, s)
  {
    hide LocalOutputs, MockPreimage, ResultPreimage, NoncePreimage, SuiteOr, SuiteId;
  }

  // ---------- A receipt evicted by a second proof ----------

  /** A remote SP1 prover's answer. */
  function Proof(outputs: bytes, proof: bytes): Prover {
    Remote(Some(ProveResponse(outputs, proof, SuiteId(Sha256Sp1))))
  }

  function Sp1Receipt(sha: Digest, p: Prepared, outputs: bytes, proof: bytes): TeeReceipt {
    Issue(sha, p, Proved(p.inputs, ProveResponse(outputs, proof, SuiteId(Sha256Sp1)), "", ""))
  }

  lemma RemoteCompletes(sha: Digest, c: Control, p: Prepared, outputs: bytes, proof: bytes)
    requires p.secret == []
    ensures Complete(sha, c, p, Proof(outputs, proof), None) == Ok(Sp1Receipt(sha, p, outputs, proof))
  {
    hide LooksSafe, Issue, WithDigest, MockProofOf, HexEncode, ProveLocal;
    NoSecretToLeak(Sp1Receipt(sha, p, outputs, proof), p.secret);
  }

  lemma Sp1Fields(sha: Digest, p: Prepared, outputs: bytes, proof: bytes, proof': bytes)
    ensures Sp1Receipt(sha, p, outputs, proof).proofRef == proof
    ensures JobId(sha, Sp1Receipt(sha, p, outputs, proof)) == JobId(sha, Sp1Receipt(sha, p, outputs, proof'))
  {
    hide ResultPreimage, NoncePreimage, SuiteOr, SuiteId, HexEncode, Concat;
  }

  /** The states of two Executes of one request, one after the other. */
  function TwiceStates(sha: Digest, c: Control, req: ExecuteRequest, p: Prepared, r: TeeReceipt, s: TeeReceipt): seq<State> {
    var q0, q1 := BeginRequest(FRESH), EndRequest(BeginRequest(FRESH));
    var q2 := BeginRequest(q1);
    var jobs: map<string, TeeReceipt> := map[JobId(sha, r) := r];
    [INITIAL,
     State(map[], map[], q0, map[0 := p], []),
     State(jobs, map[], q1, map[], [r]),
     State(jobs, map[], q2, map[1 := p], [r]),
     State(jobs[JobId(sha, s) := s], map[], EndRequest(q2), map[], [r, s])]
  }

  /** A run of two Executes of one request whose remote prover answers with two proofs: the first receipt, issued by this
      very server, is no longer found. */
  lemma SecondProofEvicts(
      sha: Digest, c: Control, req: ExecuteRequest, p: Prepared, outputs: bytes, proof: bytes, proof': bytes)
    requires c.limits == Limits(None, None) && proof != proof'
    requires Prepare(sha, c, map[], req) == Ok(p) && p.secret == []
    ensures
      var r, s := Sp1Receipt(sha, p, outputs, proof), Sp1Receipt(sha, p, outputs, proof');
      var ss := TwiceStates(sha, c, req, p, r, s);
      Services.IsRun(sha, c, ss, [Start(0, req, 0), End(0, Proof(outputs, proof), None),
                                  Start(1, req, 0), End(1, Proof(outputs, proof'), None)]) &&
      r in ss[4].issued && !FindIssued(ss[4].jobs, r)
  {
    hide Prepare, Complete, Sp1Receipt, JobId, Proof, Step, SuiteId;
    var r, s := Sp1Receipt(sha, p, outputs, proof), Sp1Receipt(sha, p, outputs, proof');
    var ss := TwiceStates(sha, c, req, p, r, s);
    RemoteCompletes(sha, c, p, outputs, proof);
    RemoteCompletes(sha, c, p, outputs, proof');
    Sp1Fields(sha, p, outputs, proof, proof');
    Sp1Fields(sha, p, outputs, proof', proof);
    assert map[0 := p] - {0} == map[] && map[1 := p] - {1} == map[];
    assert [] + [r] == [r] && [r] + [s] == [r, s];
    BeginsAt(sha, c, ss[0], 0, req, p, ss[1]);
    EndsAt(sha, c, ss[1], 0, Proof(outputs, proof), r, ss[2]);
    BeginsAt(sha, c, ss[2], 1, req, p, ss[3]);
    EndsAt(sha, c, ss[3], 1, Proof(outputs, proof'), s, ss[4]);
    OnlyOne(sha, ss[4].jobs, r, s);
  }

  /** In particular for a plain request to the default guest, which such a server always admits. */
  lemma SecondProofExample(
      sha: Digest, c: Control, inputs: bytes, nonce: bytes, outputs: bytes, proof: bytes, proof': bytes)
    requires Admits(c) && c.limits == Limits(None, None) && proof != proof'
    ensures
      var req := ExecuteRequest([], [], inputs, nonce, [], "", []);
      Prepare(sha, c, map[], req).Ok? &&
      var p := Prepare(sha, c, map[], req).value;
      var r, s := Sp1Receipt(sha, p, outputs, proof), Sp1Receipt(sha, p, outputs, proof');
      var ss := TwiceStates(sha, c, req, p, r, s);
      Services.IsRun(sha, c, ss, [Start(0, req, 0), End(0, Proof(outputs, proof), None),
                                  Start(1, req, 0), End(1, Proof(outputs, proof'), None)]) &&
      r in ss[4].issued && !FindIssued(ss[4].jobs, r)
  {
    hide Prepare, ResolveGuest, Builtin, ApiKeyOk, Sp1Receipt, Proof, TwiceStates, FindIssued, Services.IsRun, CodeHash;
    var req := ExecuteRequest([], [], inputs, nonce, [], "", []);
    DefaultGuest();
    PrepareRegistry(sha, c, map[], req, ResolveGuest([]).value);
    var p := Prepare(sha, c, map[], req).value;
    SecondProofEvicts(sha, c, req, p, outputs, proof, proof');
  }

  lemma BeginsAt(sha: Digest, c: Control, s: State, id: nat, req: ExecuteRequest, p: Prepared, t: State)
    requires c.limits == Limits(None, None) && Prepare(sha, c, s.programs, req) == Ok(p) && id !in s.open
    requires t == s.(quota := BeginRequest(s.quota), open := s.open[id := p])
    ensures Step(sha, c, s, Start(id, req, 0), t)
  {
    hide Prepare;
  }

  lemma EndsAt(sha: Digest, c: Control, s: State, id: nat, prover: Prover, r: TeeReceipt, t: State)
    requires id in s.open && Complete(sha, c, s.open[id], prover, None) == Ok(r)
    requires t.programs == s.programs && t.quota == EndRequest(s.quota) && t.open == s.open - {id}
    requires t.jobs == s.jobs[JobId(sha, r) := r] && t.issued == s.issued + [r]
    ensures Step(sha, c, s, End(id, prover, None), t)
  {
    hide Complete, JobId;
  }

  lemma OnlyOne(sha: Digest, jobs: map<string, TeeReceipt>, r: TeeReceipt, s: TeeReceipt)
    requires jobs == map[JobId(sha, r) := r][JobId(sha, s) := s] && JobId(sha, r) == JobId(sha, s)
    requires r.proofRef != s.proofRef
    ensures !FindIssued(jobs, r)
  {
    hide JobId;
  }
}
