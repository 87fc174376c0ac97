// The server: LeanTee/Services.lean with the checks of LeanTee/Control.lean and the confidentiality helpers of
// LeanTee/Confidential.lean.  The handlers are functions of the state first; the classes below refine them.

module Services {
  import opened Wrappers
  import opened Text
  import opened Framing
  import opened Hex
  import opened Receipt
  import opened GuestProg
  import opened GuestRun
  import opened Quotas

  // ---------- Receipts ----------

  datatype Measurement = Measurement(code: bytes, config: bytes)

  datatype TeeReceipt = TeeReceipt(
    measurement: Measurement, inputs: bytes, outputs: bytes, resultHash: bytes, nonce: bytes, proofRef: bytes,
    suite: string, confidentiality: string, secretDigestHex: string)

  function ClaimOf(r: TeeReceipt): Claim {
    Claim(r.measurement.code, r.measurement.config, r.inputs, r.outputs, r.nonce)
  }

  /** `computeResultHash`. */
  function ComputeResultHash(sha: Digest, r: TeeReceipt): bytes {
    sha(ResultPreimage(Sha256Mock, ClaimOf(r)))
  }

  /** `mockProof`: a function of measurement, inputs and outputs. */
  function MockProofOf(sha: Digest, m: Measurement, inputs: bytes, outputs: bytes): bytes {
    sha(MockPreimage(Sha256Mock, Claim(m.code, m.config, inputs, outputs, [])))
  }

  function SuiteOr(suite: string): string {
    var t := Trim(Lean, suite);
    if t == "" then SuiteId(Sha256Mock) else t
  }

  /** `buildReceipt` with `withComputedHash`. */
  function BuildReceipt(
      sha: Digest, m: Measurement, inputs: bytes, outputs: bytes, nonce: bytes, proofRef: bytes, suite: string,
      confidentiality: string, digestHex: string): TeeReceipt
  {
    var r := TeeReceipt(m, inputs, outputs, [], nonce, proofRef, SuiteOr(suite), confidentiality, digestHex);
    r.(resultHash := ComputeResultHash(sha, r))
  }

  /** What the nonce of a request without one is the hash of. */
  function NoncePreimage(inputs: bytes, config: bytes): bytes {
    Concat([inputs, config])
  }

  function JobPreimage(r: TeeReceipt): bytes {
    Concat([r.nonce, r.resultHash])
  }

  function JobId(sha: Digest, r: TeeReceipt): string {
    HexEncode(sha(JobPreimage(r)))
  }

  // ---------- Configuration and requests ----------

  datatype Acl = Acl(tenants: seq<(string, seq<string>)>, loadTenants: seq<string>, secretTenants: seq<string>)

  /** The first entry for the tenant decides. */
  function AclAllows(tenants: seq<(string, seq<string>)>, tenant: string, guestId: string): bool {
    if tenants == [] then false
    else if tenants[0].0 == tenant then tenants[0].1 == [] || guestId in tenants[0].1
    else AclAllows(tenants[1..], tenant, guestId)
  }

  datatype Control = Control(
    apiKey: Option<string>, presentedKey: Option<string>, tenant: string, acl: Acl, limits: Limits,
    maxProgramBytes: nat, profileV2: bool, local: bool, hasWorker: bool)

  predicate ApiKeyOk(c: Control) {
    c.apiKey.None? || c.apiKey == c.presentedKey
  }

  datatype ExecuteRequest = ExecuteRequest(
    guestId: bytes, configHash: bytes, inputs: bytes, nonce: bytes, program: bytes, programId: string,
    secretInputs: bytes)

  datatype Failure = Unauthenticated | ConfidentialityUnderV2 | ConfidentialityOff | SecretForbidden | UnknownProgramId |
    ProgramTooLarge | ProgramInvalid(Error) | EmptyProgram | LoadForbidden | UnknownGuest | Forbidden |
    QuotaExceeded(QuotaError) | ProverFailed | WorkerUnset | WorkerFailed | SecretLeaked

  // ---------- LoadProgram ----------

  function ProgramId(sha: Digest, raw: bytes): string {
    HexEncode(sha(raw))
  }

  /** `handleLoadProgram` up to the store. */
  function LoadCheck(c: Control, raw: bytes): Option<Failure> {
    if !ApiKeyOk(c) then Some(Unauthenticated)
    else if c.acl.loadTenants != [] && c.tenant !in c.acl.loadTenants then Some(LoadForbidden)
    else if raw == [] then Some(EmptyProgram)
    else if |raw| > c.maxProgramBytes then Some(ProgramTooLarge)
    else
      match Parse(Lean, raw, c.maxProgramBytes)
      case Err(e) => Some(ProgramInvalid(e))
      case Ok(_) => None
  }

  // ---------- Execute ----------

  /** What a request comes down to once it has passed all checks but the quota. */
  datatype Prepared = Prepared(
    guest: Guest, measurement: Measurement, program: bytes, rules: bytes, inputs: bytes, nonce: bytes, secret: bytes)

  function ResolveProgram(programs: map<string, bytes>, req: ExecuteRequest): Result<Option<bytes>, Failure> {
    if req.program != [] then Ok(Some(req.program))
    else if req.programId != "" then
      if req.programId in programs then Ok(Some(programs[req.programId])) else Err(UnknownProgramId)
    else Ok(None)
  }

  function FindGuest(gs: seq<Guest>, id: string): Option<Guest> {
    if gs == [] then None else if gs[0].guestId == id then Some(gs[0]) else FindGuest(gs[1..], id)
  }

  /** `resolveGuest` with `aliases`. */
  function ResolveGuest(guestId: bytes): Option<Guest> {
    var id := Trim(Lean, InputText(guestId));
    FindGuest(Builtin(), if id == "" || id == "compliance_operator/v1" then "compliance_operator" else id)
  }

  function SecretCheck(c: Control, req: ExecuteRequest): Option<Failure> {
    if req.secretInputs == [] then None
    else if c.profileV2 then Some(ConfidentialityUnderV2)
    else if !c.local then Some(ConfidentialityOff)
    else if c.acl.secretTenants != [] && c.tenant !in c.acl.secretTenants then Some(SecretForbidden)
    else None
  }

  /** The guest, measurement and proving material for a resolved program, or for a registry guest. */
  function Resolve(sha: Digest, c: Control, req: ExecuteRequest, program: Option<bytes>): Result<Prepared, Failure> {
    match program
    case Some(prog) =>
      if |prog| > c.maxProgramBytes then Err(ProgramTooLarge)
      else
        (match Parse(Lean, prog, c.maxProgramBytes)
         case Err(e) => Err(ProgramInvalid(e))
         case Ok(_) =>
           Ok(Prepared(Runtime(), Measurement(CodeHash(sha, Runtime()), sha(prog)), prog, [],
                       req.inputs, req.nonce, req.secretInputs)))
    case None =>
      match ResolveGuest(req.guestId)
      case None => Err(UnknownGuest)
      case Some(g) =>
        var preimage := if req.secretInputs != [] && req.configHash == [] then req.secretInputs else req.configHash;
        Ok(Prepared(g, Measurement(CodeHash(sha, g), sha(preimage)), [], preimage,
                    req.inputs, req.nonce, req.secretInputs))
  }

  /** `handleExecute` before the quota check. */
  function Prepare(sha: Digest, c: Control, programs: map<string, bytes>, req: ExecuteRequest)
    : Result<Prepared, Failure>
  {
    if !ApiKeyOk(c) then Err(Unauthenticated)
    else if SecretCheck(c, req).Some? then Err(SecretCheck(c, req).value)
    else
      match ResolveProgram(programs, req)
      case Err(e) => Err(e)
      case Ok(program) =>
        match Resolve(sha, c, req, program)
        case Err(e) => Err(e)
        case Ok(p) =>
          if c.acl.tenants != [] && !AclAllows(c.acl.tenants, c.tenant, p.guest.guestId) then Err(Forbidden) else Ok(p)
  }

  datatype ProveResponse = ProveResponse(outputs: bytes, proofRef: bytes, suite: string)

  /** The in-process prover, or a remote one with whatever it answered. */
  datatype Prover = InProcess | Remote(answer: Option<ProveResponse>)

  /** What the sealed worker process returned. */
  datatype Sealed = Sealed(outputs: bytes, secretDigest: bytes)

  function ParseErrorOutput(): bytes {
    Encode("decision=deny\nreason=parse_error\n")
  }

  /** The outputs of `proveLocal`.  It parses again, with the default limit. */
  function LocalOutputs(sha: Digest, p: Prepared): bytes {
    if p.guest.guestId == Runtime().guestId then
      match RunBytes(Lean, sha, p.program, p.inputs, DEFAULT_MAX_PROGRAM_BYTES)
      case Ok(out) => out
      case Err(_) => ParseErrorOutput()
    else
      RunRegistry(Lean, sha, p.guest, p.measurement.config, p.inputs, p.rules)
  }

  function ProveLocal(sha: Digest, p: Prepared): ProveResponse {
    var out := LocalOutputs(sha, p);
    ProveResponse(out, MockProofOf(sha, p.measurement, p.inputs, out), SuiteId(Sha256Mock))
  }

  /** `handleProve`: the guest is looked up by its code hash; an unknown one counts as the compliance guest. */
  function ServeProve(sha: Digest, m: Measurement, inputs: bytes, program: bytes, rules: bytes): ProveResponse {
    var found := FindByCode(sha, Builtin(), m.code);
    var g := if found.Some? then found.value else Builtin()[0];
    ProveLocal(sha, Prepared(g, m, program, rules, inputs, [], []))
  }

  /** `handleMeasure`. */
  function Measure(sha: Digest, guestId: bytes, configHash: bytes, program: bytes, limit: nat): Result<Measurement, Failure> {
    if program != [] then
      match Parse(Lean, program, limit)
      case Err(e) => Err(ProgramInvalid(e))
      case Ok(_) => Ok(Measurement(CodeHash(sha, Runtime()), sha(program)))
    else
      match ResolveGuest(guestId)
      case None => Err(UnknownGuest)
      case Some(g) => Ok(Measurement(CodeHash(sha, g), sha(configHash)))
  }

  /** `outputsLookSafe`: the decoded text does not contain the decoded secret. */
  predicate LooksSafe(public: bytes, secret: bytes) {
    match FromUtf8(secret)
    case None => true
    case Some(s) => s == "" || Before(InputText(public), s) == InputText(public)
  }

  /** `publicInputsWithDigest`. */
  function WithDigest(inputs: bytes, digestHex: string): bytes {
    var base := InputText(inputs);
    var ended := if base == "" || base[|base| - 1] == '\n' then base else base + "\n";
    Encode(ended + "secret_digest=" + digestHex + "\n")
  }

  /** Public inputs, prover's response, confidentiality and digest to put into the receipt. */
  datatype Proved = Proved(inputs: bytes, response: ProveResponse, confidentiality: string, digestHex: string)

  function Prove(sha: Digest, c: Control, p: Prepared, prover: Prover, worker: Option<Sealed>)
    : Result<Proved, Failure>
  {
    if p.secret == [] then
      match prover
      case InProcess => Ok(Proved(p.inputs, ProveLocal(sha, p), "", ""))
      case Remote(None) => Err(ProverFailed)
      case Remote(Some(r)) => Ok(Proved(p.inputs, r, "", ""))
    else if !c.hasWorker then Err(WorkerUnset)
    else
      match worker
      case None => Err(WorkerFailed)
      case Some(sealed) =>
        if !LooksSafe(sealed.outputs, p.secret) then Err(SecretLeaked)
        else
          var digestHex := HexEncode(sealed.secretDigest);
          var inputs := WithDigest(p.inputs, digestHex);
          var proof := MockProofOf(sha, p.measurement, inputs, sealed.outputs);
          Ok(Proved(inputs, ProveResponse(sealed.outputs, proof, SuiteId(Sha256Mock)), "local", digestHex))
  }

  /** The receipt for what was proved. */
  function Issue(sha: Digest, p: Prepared, d: Proved): TeeReceipt {
    var nonce := if p.nonce == [] then sha(NoncePreimage(d.inputs, p.measurement.config)) else p.nonce;
    BuildReceipt(sha, p.measurement, d.inputs, d.response.outputs, nonce, d.response.proofRef, d.response.suite,
                 d.confidentiality, d.digestHex)
  }

  /** `handleExecute` after the request has begun: the receipt to store, or the failure to report. */
  function Complete(sha: Digest, c: Control, p: Prepared, prover: Prover, worker: Option<Sealed>)
    : Result<TeeReceipt, Failure>
  {
    match Prove(sha, c, p, prover, worker)
    case Err(e) => Err(e)
    case Ok(d) =>
      var r := Issue(sha, p, d);
      if !LooksSafe(r.inputs, p.secret) || !LooksSafe(r.outputs, p.secret) then Err(SecretLeaked) else Ok(r)
  }

  // ---------- Accept ----------

  /** Two receipts with the same evidence, as `findIssued?` compares them. */
  predicate SameEvidence(s: TeeReceipt, r: TeeReceipt) {
    s.resultHash == r.resultHash && s.proofRef == r.proofRef && s.measurement == r.measurement &&
    s.inputs == r.inputs && s.outputs == r.outputs
  }

  predicate FindIssued(jobs: map<string, TeeReceipt>, r: TeeReceipt) {
    exists id :: id in jobs && SameEvidence(jobs[id], r)
  }

  datatype AcceptRequest = AcceptRequest(
    receipt: TeeReceipt, policyCode: bytes, policyConfig: bytes, proofOk: bool, requireConfidentiality: string)

  datatype AcceptOutcome = Accepted | NotAuthenticated | WrongConfidentiality | MissingDigest | UnsupportedSuite |
    NotInPolicy | HashMismatch | Sp1NotVerified | ProofInvalid

  predicate ConfidentialityOk(req: AcceptRequest) {
    var want := Trim(Lean, req.requireConfidentiality);
    want == "" ||
    (req.receipt.confidentiality == want && !(want == "local" && req.receipt.secretDigestHex == ""))
  }

  predicate PolicyAllows(policy: seq<Measurement>, m: Measurement) {
    policy == [] || m in policy
  }

  predicate MeasurementOk(policy: seq<Measurement>, req: AcceptRequest) {
    var m := req.receipt.measurement;
    var wanted := Measurement(req.policyCode, req.policyConfig);
    (req.policyCode == [] && req.policyConfig == [] && PolicyAllows(policy, m)) || m == wanted ||
    (policy == [] && req.policyCode != [] && m == wanted)
  }

  /** `acceptReceipt`. */
  function AcceptReceipt(sha: Digest, policy: seq<Measurement>, r: TeeReceipt, proofOk: bool): AcceptOutcome {
    if r.suite != "" && r.suite != SuiteId(Sha256Mock) && r.suite != SuiteId(Sha256Sp1) then UnsupportedSuite
    else if r.measurement !in policy then NotInPolicy
    else if r.resultHash != ComputeResultHash(sha, r) then HashMismatch
    else if !proofOk then ProofInvalid
    else Accepted
  }

  /** `handleAccept`. */
  function Accept(
      sha: Digest, c: Control, policy: seq<Measurement>, trustProofOk: bool, jobs: map<string, TeeReceipt>,
      req: AcceptRequest): AcceptOutcome
  {
    var r := req.receipt;
    var suite := if r.suite == "" then SuiteId(Sha256Mock) else r.suite;
    var want := Trim(Lean, req.requireConfidentiality);
    if !ApiKeyOk(c) then NotAuthenticated
    else if want != "" && r.confidentiality != want then WrongConfidentiality
    else if want != "" && want == "local" && r.secretDigestHex == "" then MissingDigest
    else if suite != SuiteId(Sha256Mock) && suite != SuiteId(Sha256Sp1) then UnsupportedSuite
    else if !MeasurementOk(policy, req) then NotInPolicy
    else if r.resultHash != ComputeResultHash(sha, r) then HashMismatch
    else
      var issued := FindIssued(jobs, r);
      var proofOk :=
        if suite == SuiteId(Sha256Mock) then r.proofRef == MockProofOf(sha, r.measurement, r.inputs, r.outputs)
        else issued || (trustProofOk && req.proofOk);
      if proofOk then Accepted
      else if suite == SuiteId(Sha256Sp1) && !issued && !trustProofOk then Sp1NotVerified
      else ProofInvalid
  }

  // ---------- The state machine ----------

  /** `open` holds the requests begun and not ended; `issued` is the history of receipts put into the job store. */
  datatype State = State(
    jobs: map<string, TeeReceipt>, programs: map<string, bytes>, quota: Quota, open: map<nat, Prepared>,
    issued: seq<TeeReceipt>)

  const INITIAL: State := State(map[], map[], FRESH, map[], [])

  datatype Label = Load(raw: bytes) | Start(id: nat, req: ExecuteRequest, now: nat) |
    End(id: nat, prover: Prover, worker: Option<Sealed>)

  function LoadStep(sha: Digest, c: Control, s: State, raw: bytes): State {
    if LoadCheck(c, raw).Some? then s else s.(programs := s.programs[ProgramId(sha, raw) := raw])
  }

  /** The first half of Execute: all checks, the quota check and the begin. */
  function StartStep(sha: Digest, c: Control, s: State, id: nat, req: ExecuteRequest, now: nat): State {
    match Prepare(sha, c, s.programs, req)
    case Err(_) => s
    case Ok(p) =>
      var (q, error) := CheckQuota(c.limits, s.quota, now);
      if error.Some? then s.(quota := q) else s.(quota := BeginRequest(q), open := s.open[id := p])
  }

  /** The second half: prove, build, store, and in every case end the request. */
  function EndStep(sha: Digest, c: Control, s: State, id: nat, prover: Prover, worker: Option<Sealed>): State
    requires id in s.open
  {
    var closed := s.(quota := EndRequest(s.quota), open := s.open - {id});
    match Complete(sha, c, s.open[id], prover, worker)
    case Err(_) => closed
    case Ok(r) => closed.(jobs := s.jobs[JobId(sha, r) := r], issued := s.issued + [r])
  }

  /** One step of the server.  Other requests may load, start and end between a start and its end. */
  ghost predicate Step(sha: Digest, c: Control, s: State, l: Label, s': State) {
    match l
    case Load(raw) => s' == LoadStep(sha, c, s, raw)
    case Start(id, req, now) => id !in s.open && s' == StartStep(sha, c, s, id, req, now)
    case End(id, prover, worker) => id in s.open && s' == EndStep(sha, c, s, id, prover, worker)
  }

  ghost predicate IsRun(sha: Digest, c: Control, ss: seq<State>, ls: seq<Label>) {
    |ss| == |ls| + 1 && ss[0] == INITIAL && forall k :: 0 <= k < |ls| ==> Step(sha, c, ss[k], ls[k], ss[k + 1])
  }
}
