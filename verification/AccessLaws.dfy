// Who may do what: the key, the tenant lists and the checks of every call, and what they keep out over whole runs.

module AccessLaws {
  import opened Wrappers
  import opened Text
  import opened Framing
  import opened Hex
  import opened Receipt
  import opened GuestProg
  import opened GuestRun
  import opened Quotas
  import opened Services
  import opened ProveLaws

  // ---------- The four permissions ----------

  /** A configured key must be presented. */
  predicate KeyFits(c: Control) {
    c.apiKey.Some? ==> c.presentedKey.Some? && c.presentedKey.value == c.apiKey.value
  }

  /** An empty list is no restriction. */
  predicate MayLoad(c: Control) {
    c.acl.loadTenants == [] || c.tenant in c.acl.loadTenants
  }

  predicate MaySendSecrets(c: Control) {
    c.local && !c.profileV2 && (c.acl.secretTenants == [] || c.tenant in c.acl.secretTenants)
  }

  /** Entry k is the tenant's, and the first one of this name. */
  predicate EntryOf(tenants: seq<(string, seq<string>)>, tenant: string, k: nat) {
    k < |tenants| && tenants[k].0 == tenant && forall j :: 0 <= j < k ==> tenants[j].0 != tenant
  }

  /** The tenant's entry names the guest, or names none. */
  ghost predicate MayRun(c: Control, guestId: string) {
    c.acl.tenants == [] ||
    exists k: nat :: EntryOf(c.acl.tenants, c.tenant, k) &&
      (c.acl.tenants[k].1 == [] || guestId in c.acl.tenants[k].1)
  }

  lemma KeyMeans(c: Control)
    ensures ApiKeyOk(c) <==> KeyFits(c)
  {
  }

  lemma {:induction false} AclMeans(tenants: seq<(string, seq<string>)>, tenant: string, guestId: string)
    ensures AclAllows(tenants, tenant, guestId) <==>
            exists k: nat :: EntryOf(tenants, tenant, k) && (tenants[k].1 == [] || guestId in tenants[k].1)
  {
    if tenants != [] {
      var rest := tenants[1..];
      AclMeans(rest, tenant, guestId);
      if tenants[0].0 == tenant {
        assert EntryOf(tenants, tenant, 0);
      } else {
        forall k: nat
          ensures EntryOf(tenants, tenant, k + 1) <==> EntryOf(rest, tenant, k)
        {
          EntryShift(tenants, tenant, k);
        }
        if k: nat :| EntryOf(tenants, tenant, k) && (tenants[k].1 == [] || guestId in tenants[k].1) {
          assert EntryOf(rest, tenant, k - 1);
        }
        if k: nat :| EntryOf(rest, tenant, k) && (rest[k].1 == [] || guestId in rest[k].1) {
          assert EntryOf(tenants, tenant, k + 1);
        }
      }
    }
  }

  lemma EntryShift(tenants: seq<(string, seq<string>)>, tenant: string, k: nat)
    requires tenants != [] && tenants[0].0 != tenant
    ensures EntryOf(tenants, tenant, k + 1) <==> EntryOf(tenants[1..], tenant, k)
  {
    var rest := tenants[1..];
    assert forall j :: 0 <= j < |rest| ==> rest[j] == tenants[j + 1];
    if EntryOf(rest, tenant, k) {
      forall j | 0 <= j < k + 1
        ensures tenants[j].0 != tenant
      {
        assert j > 0 ==> tenants[j] == rest[j - 1];
      }
    }
  }

  lemma MayRunMeans(c: Control, guestId: string)
    ensures MayRun(c, guestId) <==> c.acl.tenants == [] || AclAllows(c.acl.tenants, c.tenant, guestId)
  {
    hide EntryOf, AclAllows;
    AclMeans(c.acl.tenants, c.tenant, guestId);
  }

  // ---------- The outcome of every call ----------

  /** LoadProgram: what is stored, and the reason for every refusal. */
  lemma LoadOutcome(c: Control, raw: bytes)
    ensures
      match LoadCheck(c, raw)
      case None =>
        KeyFits(c) && MayLoad(c) && 0 < |raw| <= c.maxProgramBytes && Parse(Lean, raw, c.maxProgramBytes).Ok?
      case Some(e) =>
        match e
        case Unauthenticated => !KeyFits(c)
        case LoadForbidden => KeyFits(c) && !MayLoad(c)
        case EmptyProgram => KeyFits(c) && MayLoad(c) && raw == []
        case ProgramTooLarge => KeyFits(c) && MayLoad(c) && |raw| > c.maxProgramBytes
        case ProgramInvalid(f) =>
          KeyFits(c) && MayLoad(c) && 0 < |raw| <= c.maxProgramBytes && Parse(Lean, raw, c.maxProgramBytes) == Err(f)
        case _ => false
  {
    hide Parse;
    KeyMeans(c);
  }

  lemma SecretOutcome(c: Control, req: ExecuteRequest)
    ensures
      match SecretCheck(c, req)
      case None => req.secretInputs == [] || MaySendSecrets(c)
      case Some(e) =>
        req.secretInputs != [] &&
        match e
        case ConfidentialityUnderV2 => c.profileV2
        case ConfidentialityOff => !c.profileV2 && !c.local
        case SecretForbidden =>
          !c.profileV2 && c.local && c.acl.secretTenants != [] && c.tenant !in c.acl.secretTenants
        case _ => false
  {
  }

  /** The names a guest can be asked for by; white space around them is ignored. */
  lemma GuestNames(guestId: bytes)
    ensures
      var t := Trim(Lean, InputText(guestId));
      ResolveGuest(guestId) ==
        if t == "" || t == "compliance_operator" || t == "compliance_operator/v1" then Some(Builtin()[0])
        else if t == "voting_operator" then Some(Builtin()[1])
        else if t == "onboarding_operator" then Some(Builtin()[2])
        else if t == "trade_operator" then Some(Builtin()[3])
        else if t == "guest_prog_runtime" then Some(Builtin()[4])
        else None
  {
    hide Trim, InputText;
    var t := Trim(Lean, InputText(guestId));
    FindByName(if t == "" || t == "compliance_operator/v1" then "compliance_operator" else t);
  }

  lemma FindByName(id: string)
    ensures FindGuest(Builtin(), id) ==
      if id == "compliance_operator" then Some(Builtin()[0])
      else if id == "voting_operator" then Some(Builtin()[1])
      else if id == "onboarding_operator" then Some(Builtin()[2])
      else if id == "trade_operator" then Some(Builtin()[3])
      else if id == "guest_prog_runtime" then Some(Builtin()[4])
      else None
  {
    var gs := Builtin();
    assert gs[1..][1..] == gs[2..] && gs[2..][1..] == gs[3..] && gs[3..][1..] == gs[4..] && gs[4..][1..] == [];
    assert FindGuest(gs[4..], id) == if id == "guest_prog_runtime" then Some(gs[4]) else None;
    assert FindGuest(gs[3..], id) == if id == "trade_operator" then Some(gs[3]) else FindGuest(gs[4..], id);
    assert FindGuest(gs[2..], id) == if id == "onboarding_operator" then Some(gs[2]) else FindGuest(gs[3..], id);
    assert FindGuest(gs[1..], id) == if id == "voting_operator" then Some(gs[1]) else FindGuest(gs[2..], id);
  }

  /** The program that a request names: inline before by id. */
  function NamedProgram(programs: map<string, bytes>, req: ExecuteRequest): Option<bytes> {
    if req.program != [] then Some(req.program)
    else if req.programId != "" && req.programId in programs then Some(programs[req.programId])
    else None
  }

  /** The caller holds the key and may send what the request contains. */
  predicate Entitled(c: Control, req: ExecuteRequest) {
    KeyFits(c) && (req.secretInputs != [] ==> MaySendSecrets(c))
  }

  /** The request asks for a program. */
  predicate AsksProgram(req: ExecuteRequest) {
    req.program != [] || req.programId != ""
  }

  /** What a request that passes the checks is prepared as. */
  predicate PreparedAs(sha: Digest, c: Control, programs: map<string, bytes>, req: ExecuteRequest, p: Prepared) {
    && p.inputs == req.inputs && p.nonce == req.nonce && p.secret == req.secretInputs
    && if AsksProgram(req) then
         NamedProgram(programs, req) == Some(p.program) && |p.program| <= c.maxProgramBytes &&
         Parse(Lean, p.program, c.maxProgramBytes).Ok? && p.rules == [] && p.guest == Runtime() &&
         p.measurement == Measurement(sha(Encode("lean-tee/guest_prog_runtime/lean-sp1/v1")), sha(p.program))
       else
         ResolveGuest(req.guestId) == Some(p.guest) && p.program == [] &&
         p.rules == (if req.configHash == [] then req.secretInputs else req.configHash) &&
         p.measurement == Measurement(sha(Encode(p.guest.codeId)), sha(p.rules))
  }

  /** The part after key and secrets, for the program the request names or for a registry guest. */
  lemma ResolveOutcome(sha: Digest, c: Control, programs: map<string, bytes>, req: ExecuteRequest)
    ensures
      var named := NamedProgram(programs, req);
      match ResolveProgram(programs, req)
      case Err(e) => e == UnknownProgramId && AsksProgram(req) && named == None
      case Ok(program) =>
        program == named && (AsksProgram(req) <==> named.Some?) &&
        match Resolve(sha, c, req, program)
        case Ok(p) =>
          PreparedAs(sha, c, programs, req, p) && (AsksProgram(req) ==> p.guest.guestId == "guest_prog_runtime") &&
          (!AsksProgram(req) ==> ResolveGuest(req.guestId) == Some(p.guest))
        case Err(e) =>
          match e
          case ProgramTooLarge => named.Some? && |named.value| > c.maxProgramBytes
          case ProgramInvalid(f) =>
            named.Some? && |named.value| <= c.maxProgramBytes && Parse(Lean, named.value, c.maxProgramBytes) == Err(f)
          case UnknownGuest => !AsksProgram(req) && ResolveGuest(req.guestId) == None
          case _ => false
  {
    hide Parse, ResolveGuest, Encode;
  }

  /** Execute before the quota: what is run, and the reason for every refusal. */
  lemma PrepareOutcome(sha: Digest, c: Control, programs: map<string, bytes>, req: ExecuteRequest)
    ensures
      var named := NamedProgram(programs, req);
      match Prepare(sha, c, programs, req)
      case Ok(p) => Entitled(c, req) && PreparedAs(sha, c, programs, req, p) && MayRun(c, p.guest.guestId)
      case Err(e) =>
        match e
        case Unauthenticated => !KeyFits(c)
        case UnknownProgramId => Entitled(c, req) && AsksProgram(req) && named == None
        case ProgramTooLarge => Entitled(c, req) && named.Some? && |named.value| > c.maxProgramBytes
        case ProgramInvalid(f) =>
          Entitled(c, req) && named.Some? && |named.value| <= c.maxProgramBytes &&
          Parse(Lean, named.value, c.maxProgramBytes) == Err(f)
        case UnknownGuest => Entitled(c, req) && !AsksProgram(req) && ResolveGuest(req.guestId) == None
        case Forbidden =>
          Entitled(c, req) &&
          (if AsksProgram(req) then !MayRun(c, "guest_prog_runtime")
           else ResolveGuest(req.guestId).Some? && !MayRun(c, ResolveGuest(req.guestId).value.guestId))
        case _ => KeyFits(c) && SecretCheck(c, req) == Some(e)
  {
    hide Parse, ResolveGuest, SecretCheck, AclAllows, MayRun, ApiKeyOk, KeyFits, MaySendSecrets, Resolve, ResolveProgram,
      PreparedAs, NamedProgram, AsksProgram;
    ResolveOutcome(sha, c, programs, req);
    KeyMeans(c);
    SecretOutcome(c, req);
    MayRunMeans(c, "guest_prog_runtime");
    if ResolveGuest(req.guestId).Some? {
      MayRunMeans(c, ResolveGuest(req.guestId).value.guestId);
    }
  }

  /** Measure: what is announced, and the reason for every refusal. */
  lemma MeasureOutcome(sha: Digest, guestId: bytes, configHash: bytes, program: bytes, limit: nat)
    ensures
      match Measure(sha, guestId, configHash, program, limit)
      case Ok(m) =>
        if program != [] then
          Parse(Lean, program, limit).Ok? &&
          m == Measurement(sha(Encode("lean-tee/guest_prog_runtime/lean-sp1/v1")), sha(program))
        else
          ResolveGuest(guestId).Some? &&
          m == Measurement(sha(Encode(ResolveGuest(guestId).value.codeId)), sha(configHash))
      case Err(ProgramInvalid(e)) => program != [] && Parse(Lean, program, limit) == Err(e)
      case Err(e) => e == UnknownGuest && program == [] && ResolveGuest(guestId) == None
  {
    hide Parse, ResolveGuest, Encode;
  }

  /** A prove service runs the guest whose code hash it is given, and the compliance operator for any other code; it takes
      no part in the policy, and its proof is over what it answers. */
  lemma ServeOutcome(sha: Digest, m: Measurement, inputs: bytes, program: bytes, rules: bytes)
    ensures
      var r := ServeProve(sha, m, inputs, program, rules);
      var found := FindByCode(sha, Builtin(), m.code);
      var g := if found.Some? then found.value else Builtin()[0];
      var parsed := Parse(Lean, program, 65536);
      r.outputs ==
        (if g.guestId != "guest_prog_runtime" then RunRegistry(Lean, sha, g, m.config, inputs, rules)
         else if parsed.Ok? then Run(Lean, sha, parsed.value, inputs)
         else Encode("decision=deny\nreason=parse_error\n")) &&
      r.proofRef == sha(Concat([Encode("lean-tee/mock-proof/v1"), m.code, m.config, inputs, r.outputs])) &&
      r.suite == "sha256+mock"
  {
    hide Parse, Run, RunRegistry, Concat, Encode, FindByCode;
  }

  // ---------- Accept ----------

  predicate ConfidentialityMet(req: AcceptRequest) {
    var want := Trim(Lean, req.requireConfidentiality);
    want == "" ||
    (req.receipt.confidentiality == want && (want == "local" ==> req.receipt.secretDigestHex != ""))
  }

  /** The measurement is the one the caller names or, if the caller names none, one of the server's policy file; an empty
      file admits every measurement. */
  predicate MeasurementMet(policy: seq<Measurement>, req: AcceptRequest) {
    var m := req.receipt.measurement;
    (m.code == req.policyCode && m.config == req.policyConfig) ||
    (req.policyCode == [] && req.policyConfig == [] && (policy == [] || m in policy))
  }

  /** Some stored receipt agrees on all that is hashed or proved, but for the nonce. */
  predicate Stored(jobs: map<string, TeeReceipt>, r: TeeReceipt) {
    exists id :: id in jobs && jobs[id].resultHash == r.resultHash && jobs[id].proofRef == r.proofRef &&
      jobs[id].measurement.code == r.measurement.code && jobs[id].measurement.config == r.measurement.config &&
      jobs[id].inputs == r.inputs && jobs[id].outputs == r.outputs
  }

  lemma StoredMeans(jobs: map<string, TeeReceipt>, r: TeeReceipt)
    ensures FindIssued(jobs, r) <==> Stored(jobs, r)
  {
    if id :| id in jobs && SameEvidence(jobs[id], r) {
      assert Stored(jobs, r);
    }
    if Stored(jobs, r) {
      var id :| id in jobs && jobs[id].resultHash == r.resultHash && jobs[id].proofRef == r.proofRef &&
        jobs[id].measurement.code == r.measurement.code && jobs[id].measurement.config == r.measurement.config &&
        jobs[id].inputs == r.inputs && jobs[id].outputs == r.outputs;
      assert SameEvidence(jobs[id], r);
    }
  }

  /** What the result hash and the mock proof of a receipt have to be. */
  predicate ResultHashMet(sha: Digest, r: TeeReceipt) {
    r.resultHash ==
      sha(Concat([Encode("lean-tee/v1"), r.measurement.code, r.measurement.config, r.inputs, r.outputs, r.nonce]))
  }

  predicate MockProofMet(sha: Digest, r: TeeReceipt) {
    r.proofRef ==
      sha(Concat([Encode("lean-tee/mock-proof/v1"), r.measurement.code, r.measurement.config, r.inputs, r.outputs]))
  }

  /** The mock suite is the default one. */
  predicate IsMock(r: TeeReceipt) {
    r.suite == "" || r.suite == "sha256+mock"
  }

  predicate IsSp1(r: TeeReceipt) {
    r.suite == "sha256+sp1"
  }

  /** The verdict of Accept, and its reason, in terms of the receipt's own fields. */
  lemma AcceptOutcomeMeans(
      sha: Digest, c: Control, policy: seq<Measurement>, trustProofOk: bool, jobs: map<string, TeeReceipt>,
      req: AcceptRequest)
    ensures
      var r := req.receipt;
      var asked := KeyFits(c) && ConfidentialityMet(req) && (IsMock(r) || IsSp1(r));
      var hashed := asked && MeasurementMet(policy, req) && ResultHashMet(sha, r);
      match Accept(sha, c, policy, trustProofOk, jobs, req)
      case Accepted =>
        hashed && (if IsMock(r) then MockProofMet(sha, r) else Stored(jobs, r) || (trustProofOk && req.proofOk))
      case NotAuthenticated => !KeyFits(c)
      case WrongConfidentiality =>
        KeyFits(c) && !ConfidentialityMet(req) && r.confidentiality != Trim(Lean, req.requireConfidentiality)
      case MissingDigest => KeyFits(c) && !ConfidentialityMet(req) && r.confidentiality == "local" && r.secretDigestHex == ""
      case UnsupportedSuite => KeyFits(c) && ConfidentialityMet(req) && !IsMock(r) && !IsSp1(r)
      case NotInPolicy => asked && !MeasurementMet(policy, req)
      case HashMismatch => asked && MeasurementMet(policy, req) && !ResultHashMet(sha, r)
      case Sp1NotVerified => hashed && IsSp1(r) && !Stored(jobs, r) && !trustProofOk
      case ProofInvalid =>
        hashed && (if IsMock(r) then !MockProofMet(sha, r) else trustProofOk && !req.proofOk && !Stored(jobs, r))
  {
    hide Trim, Concat, Encode, FindIssued, Stored, ApiKeyOk, KeyFits;
    KeyMeans(c);
    StoredMeans(jobs, req.receipt);
    SuiteTextsDiffer();
  }

  // ---------- Over whole runs ----------

  lemma AcceptNeedsKey(
      sha: Digest, c: Control, policy: seq<Measurement>, trustProofOk: bool, jobs: map<string, TeeReceipt>,
      req: AcceptRequest)
    requires !KeyFits(c)
    ensures Accept(sha, c, policy, trustProofOk, jobs, req) == NotAuthenticated
  {
    KeyMeans(c);
  }

  lemma LockedStep(sha: Digest, c: Control, l: Label, s: State)
    requires Step(sha, c, INITIAL, l, s) && !KeyFits(c)
    ensures s == INITIAL
  {
    hide Prepare, LoadCheck, KeyFits, EndStep;
    match l {
      case Load(raw) => LoadOutcome(c, raw);
      case Start(id, r, now) => PrepareOutcome(sha, c, INITIAL.programs, r);
      case End(id, prover, worker) =>
    }
  }

  /** Without the key nothing ever happens: no state of any run differs from the initial one, and Accept says yes to
      nothing. */
  lemma {:induction false} LockedOut(
      sha: Digest, c: Control, ss: seq<State>, ls: seq<Label>, k: nat, policy: seq<Measurement>, trustProofOk: bool,
      req: AcceptRequest)
    requires Services.IsRun(sha, c, ss, ls) && k < |ss| && !KeyFits(c)
    ensures ss[k] == INITIAL
    ensures Accept(sha, c, policy, trustProofOk, ss[k].jobs, req) == NotAuthenticated
  {
    hide Accept, Step, KeyFits;
    AcceptNeedsKey(sha, c, policy, trustProofOk, ss[k].jobs, req);
    if k > 0 {
      LockedOut(sha, c, ss, ls, k - 1, policy, trustProofOk, req);
      LockedStep(sha, c, ls[k - 1], ss[k]);
    }
  }

  /** A tenant that may not load never gets a program in. */
  lemma {:induction false} NothingLoaded(sha: Digest, c: Control, ss: seq<State>, ls: seq<Label>, k: nat)
    requires Services.IsRun(sha, c, ss, ls) && k < |ss| && !MayLoad(c)
    ensures ss[k].programs == map[]
  {
    hide Prepare, LoadCheck, Complete, MayLoad;
    if k > 0 {
      NothingLoaded(sha, c, ss, ls, k - 1);
      assert Step(sha, c, ss[k - 1], ls[k - 1], ss[k]);
      if ls[k - 1].Load? {
        LoadOutcome(c, ls[k - 1].raw);
      }
    }
  }

  /** A request in flight, or the receipt of one, belongs to someone who may run that guest and send those secrets. */
  ghost predicate Authorized(sha: Digest, c: Control, p: Prepared) {
    p.guest in Builtin() && p.measurement.code == CodeHash(sha, p.guest) && MayRun(c, p.guest.guestId) && KeyFits(c) &&
    (p.secret != [] ==> MaySendSecrets(c))
  }

  ghost predicate AuthorizedReceipt(sha: Digest, c: Control, r: TeeReceipt) {
    KeyFits(c) &&
    (exists g :: g in Builtin() && r.measurement.code == CodeHash(sha, g) && MayRun(c, g.guestId)) &&
    (r.confidentiality != "" || r.secretDigestHex != "" ==> MaySendSecrets(c))
  }

  ghost predicate AllAuthorized(sha: Digest, c: Control, s: State) {
    (forall id :: id in s.open ==> Authorized(sha, c, s.open[id])) &&
    forall r :: r in s.issued ==> AuthorizedReceipt(sha, c, r)
  }

  lemma PreparedIsAuthorized(sha: Digest, c: Control, programs: map<string, bytes>, req: ExecuteRequest)
    requires Prepare(sha, c, programs, req).Ok?
    ensures Authorized(sha, c, Prepare(sha, c, programs, req).value)
  {
    hide Prepare, MayRun, KeyFits, MaySendSecrets, CodeHash, Builtin, Parse, ResolveGuest;
    PrepareOutcome(sha, c, programs, req);
    PreparedShape(sha, c, programs, req);
  }

  lemma CompletedIsAuthorized(sha: Digest, c: Control, p: Prepared, prover: Prover, worker: Option<Sealed>)
    requires Complete(sha, c, p, prover, worker).Ok? && Authorized(sha, c, p)
    ensures AuthorizedReceipt(sha, c, Complete(sha, c, p, prover, worker).value)
  {
    hide LooksSafe, ResultPreimage, MockPreimage, Concat, SuiteOr, LocalOutputs, WithDigest, HexEncode, MayRun, KeyFits,
      MaySendSecrets, CodeHash, Builtin;
    assert Complete(sha, c, p, prover, worker).value.measurement == p.measurement;
  }

  /** Every request in flight and every receipt ever issued, in every run, is one that key and tenant lists allow. */
  lemma {:induction false} IssuedIsAuthorized(sha: Digest, c: Control, ss: seq<State>, ls: seq<Label>, k: nat)
    requires Services.IsRun(sha, c, ss, ls) && k < |ss|
    ensures AllAuthorized(sha, c, ss[k])
  {
    hide Prepare, LoadCheck, Complete, Authorized, AuthorizedReceipt, JobId;
    if k > 0 {
      IssuedIsAuthorized(sha, c, ss, ls, k - 1);
      assert Step(sha, c, ss[k - 1], ls[k - 1], ss[k]);
      match ls[k - 1] {
        case Load(raw) =>
        case Start(id, req, now) =>
          if Prepare(sha, c, ss[k - 1].programs, req).Ok? {
            PreparedIsAuthorized(sha, c, ss[k - 1].programs, req);
          }
        case End(id, prover, worker) =>
          if Complete(sha, c, ss[k - 1].open[id], prover, worker).Ok? {
            CompletedIsAuthorized(sha, c, ss[k - 1].open[id], prover, worker);
          }
      }
    }
  }
}
