// The stores and handlers of LeanTee/Services.lean in their own form: cells updated in place, early returns, and a
// request that is ended whether or not it succeeds.  Each method is proved against the functions of `Services`.

module Server {
  import opened Wrappers
  import opened Text
  import opened Framing
  import opened Hex
  import opened Receipt
  import opened GuestProg
  import opened GuestRun
  import opened Quotas
  import opened Services
  import opened ServicesLaws
  import ProveLaws
  import SecretLaws

  class JobStore {
    var jobs: map<string, TeeReceipt>

    constructor ()
      ensures jobs == map[]
    {
      jobs := map[];
    }

    method Put(id: string, r: TeeReceipt)
      modifies this
      ensures jobs == old(jobs)[id := r]
    {
      jobs := jobs[id := r];
    }

    method Get(id: string) returns (r: Option<TeeReceipt>)
      ensures r == if id in jobs then Some(jobs[id]) else None
    {
      r := if id in jobs then Some(jobs[id]) else None;
    }

    /** `findIssued?`: a fold over all entries, in whatever order the map gives them. */
    method Find(r: TeeReceipt) returns (found: bool)
      ensures found <==> FindIssued(jobs, r)
    {
      hide SameEvidence;
      found := false;
      var left := jobs.Keys;
      while left != {}
        invariant left <= jobs.Keys
        invariant found <==> exists id :: id in jobs.Keys - left && SameEvidence(jobs[id], r)
        decreases |left|
      {
        var id :| id in left;
        found := found || SameEvidence(jobs[id], r);
        left := left - {id};
      }
    }
  }

  class ProgramStore {
    var programs: map<string, bytes>

    constructor ()
      ensures programs == map[]
    {
      programs := map[];
    }

    method Put(id: string, raw: bytes)
      modifies this
      ensures programs == old(programs)[id := raw]
    {
      programs := programs[id := raw];
    }

    method Get(id: string) returns (r: Option<bytes>)
      ensures r == if id in programs then Some(programs[id]) else None
    {
      r := if id in programs then Some(programs[id]) else None;
    }
  }

  lemma CheckKeepsInflight(l: Limits, q: Quota, now: nat)
    ensures CheckQuota(l, q, now).0.inflight == q.inflight
  {
  }

  lemma LocalProof(sha: Digest, p: Prepared)
    ensures
      var r := ProveLocal(sha, p);
      r.suite == SuiteId(Sha256Mock) && r.proofRef == MockProofOf(sha, p.measurement, p.inputs, r.outputs)
  {
    hide LocalOutputs, MockProofOf, SuiteId;
  }

  datatype Loaded = Loaded(programId: string, programHash: bytes, runtimeCodeHash: bytes, runtimeGuestId: string)

  datatype Executed = Executed(jobId: string, receipt: TeeReceipt)

  /** The integrated server.  `open` and `issued` are what the state machine remembers beyond the cells. */
  class TeeServer {
    const sha: Digest
    const c: Control
    const jobs: JobStore
    const programs: ProgramStore
    const quotas: QuotaState
    ghost var open: map<nat, Prepared>
    ghost var issued: seq<TeeReceipt>

    ghost function View(): State
      reads this, jobs, programs, quotas
    {
      State(jobs.jobs, programs.programs, quotas.View(), open, issued)
    }

    constructor (sha: Digest, c: Control)
      ensures this.sha == sha && this.c == c && View() == INITIAL
      ensures fresh(jobs) && fresh(programs) && fresh(quotas)
    {
      this.sha, this.c := sha, c;
      jobs := new JobStore();
      programs := new ProgramStore();
      quotas := new QuotaState();
      open, issued := map[], [];
    }

    /** `handleLoadProgram`. */
    method LoadProgram(raw: bytes) returns (r: Result<Loaded, Failure>)
      modifies programs
      ensures Step(sha, c, old(View()), Load(raw), View())
      ensures LoadCheck(c, raw).Some? ==> r == Err(LoadCheck(c, raw).value)
      ensures LoadCheck(c, raw).None? ==>
        r == Ok(Loaded(ProgramId(sha, raw), sha(raw), CodeHash(sha, Runtime()), Runtime().guestId))
      ensures programs.programs == if r.Ok? then old(programs.programs)[ProgramId(sha, raw) := raw]
                                   else old(programs.programs)
    {
      hide Parse, ApiKeyOk, CodeHash, Runtime;
      if !ApiKeyOk(c) {
        return Err(Unauthenticated);
      }
      if c.acl.loadTenants != [] && c.tenant !in c.acl.loadTenants {
        return Err(LoadForbidden);
      }
      if raw == [] {
        return Err(EmptyProgram);
      }
      if |raw| > c.maxProgramBytes {
        return Err(ProgramTooLarge);
      }
      var parsed := Parse(Lean, raw, c.maxProgramBytes);
      if parsed.Err? {
        return Err(ProgramInvalid(parsed.error));
      }
      var h := sha(raw);
      var id := HexEncode(h);
      programs.Put(id, raw);
      return Ok(Loaded(id, h, CodeHash(sha, Runtime()), Runtime().guestId));
    }

    /** The checks of `handleExecute` before the quota. */
    method PrepareRequest(req: ExecuteRequest) returns (r: Result<Prepared, Failure>)
      ensures r == Prepare(sha, c, programs.programs, req)
      ensures r.Ok? ==> ProveLaws.Anchored(sha, c, r.value)
    {
      hide Parse, ApiKeyOk, CodeHash, Runtime, ResolveGuest, AclAllows, ProveLaws.Anchored;
      if Prepare(sha, c, programs.programs, req).Ok? {
        ProveLaws.PreparedShape(sha, c, programs.programs, req);
      }
      if !ApiKeyOk(c) {
        return Err(Unauthenticated);
      }
      if req.secretInputs != [] {
        if c.profileV2 {
          return Err(ConfidentialityUnderV2);
        }
        if !c.local {
          return Err(ConfidentialityOff);
        }
        if c.acl.secretTenants != [] && c.tenant !in c.acl.secretTenants {
          return Err(SecretForbidden);
        }
      }
      var program: Option<bytes> := None;
      if req.program != [] {
        program := Some(req.program);
      } else if req.programId != "" {
        program := programs.Get(req.programId);
        if program == None {
          return Err(UnknownProgramId);
        }
      }
      var p := ResolveRequest(req, program);
      if p.Err? {
        return p;
      }
      if c.acl.tenants != [] && !AclAllows(c.acl.tenants, c.tenant, p.value.guest.guestId) {
        return Err(Forbidden);
      }
      return p;
    }

    method ResolveRequest(req: ExecuteRequest, program: Option<bytes>) returns (r: Result<Prepared, Failure>)
      ensures r == Resolve(sha, c, req, program)
    {
      hide Parse, CodeHash, Runtime, ResolveGuest;
      if program.Some? {
        var prog := program.value;
        if |prog| > c.maxProgramBytes {
          return Err(ProgramTooLarge);
        }
        var parsed := Parse(Lean, prog, c.maxProgramBytes);
        if parsed.Err? {
          return Err(ProgramInvalid(parsed.error));
        }
        var m := Measurement(CodeHash(sha, Runtime()), sha(prog));
        return Ok(Prepared(Runtime(), m, prog, [], req.inputs, req.nonce, req.secretInputs));
      }
      var g := ResolveGuest(req.guestId);
      if g == None {
        return Err(UnknownGuest);
      }
      var preimage := req.configHash;
      if req.secretInputs != [] && req.configHash == [] {
        preimage := req.secretInputs;
      }
      var m := Measurement(CodeHash(sha, g.value), sha(preimage));
      return Ok(Prepared(g.value, m, [], preimage, req.inputs, req.nonce, req.secretInputs));
    }

    /** The first half of `handleExecute`: all checks, the quota check, and the begin. */
    method Begin(ghost id: nat, req: ExecuteRequest, now: nat) returns (r: Result<Prepared, Failure>)
      requires id !in open
      modifies this, quotas
      ensures Step(sha, c, old(View()), Start(id, req, now), View())
      ensures r.Ok? <==> id in open
      ensures r.Ok? ==> open[id] == r.value && Prepare(sha, c, programs.programs, req) == r
      ensures r.Ok? ==> ProveLaws.Anchored(sha, c, r.value)
      ensures open == if r.Ok? then old(open)[id := r.value] else old(open)
      ensures issued == old(issued) && quotas.inflight == old(quotas.inflight) + (if r.Ok? then 1 else 0)
    {
      hide Prepare, CheckQuota, ProveLaws.Anchored;
      r := PrepareRequest(req);
      if r.Err? {
        return;
      }
      CheckKeepsInflight(c.limits, quotas.View(), now);
      var error := quotas.Check(c.limits, now);
      if error.Some? {
        return Err(QuotaExceeded(error.value));
      }
      quotas.Begin();
      open := open[id := r.value];
    }

    /** The `try` block: prove, bind, check for leaks and store. */
    method Attempt(p: Prepared, prover: Prover, worker: Option<Sealed>) returns (r: Result<Executed, Failure>)
      modifies jobs
      ensures
        match Complete(sha, c, p, prover, worker)
        case Err(e) => r == Err(e) && jobs.jobs == old(jobs.jobs)
        case Ok(receipt) =>
          r == Ok(Executed(JobId(sha, receipt), receipt)) && jobs.jobs == old(jobs.jobs)[JobId(sha, receipt) := receipt]
      ensures r.Ok? && (prover == InProcess || p.secret != []) ==> MockProved(sha, r.value.receipt)
    {
      hide Prove, Issue, LooksSafe, MockProved, HexEncode, Concat;
      if Complete(sha, c, p, prover, worker).Ok? && (prover == InProcess || p.secret != []) {
        LocalIsMockProved(sha, c, p, prover, worker);
      }
      var proved := ProveRequest(p, prover, worker);
      if proved.Err? {
        return Err(proved.error);
      }
      var receipt := IssueReceipt(p, proved.value);
      if !LooksSafe(receipt.inputs, p.secret) {
        return Err(SecretLeaked);
      }
      if !LooksSafe(receipt.outputs, p.secret) {
        return Err(SecretLeaked);
      }
      var jobId := HexEncode(sha(Concat([receipt.nonce, receipt.resultHash])));
      jobs.Put(jobId, receipt);
      return Ok(Executed(jobId, receipt));
    }

    method ProveRequest(p: Prepared, prover: Prover, worker: Option<Sealed>) returns (r: Result<Proved, Failure>)
      ensures r == Prove(sha, c, p, prover, worker)
      ensures r.Ok? && (prover == InProcess || p.secret != []) ==>
        r.value.response.suite == SuiteId(Sha256Mock) &&
        r.value.response.proofRef == MockProofOf(sha, p.measurement, r.value.inputs, r.value.response.outputs)
      ensures r.Ok? && p.secret != [] ==>
        worker.Some? && r.value.response.outputs == worker.value.outputs && r.value.confidentiality == "local" &&
        !SecretLaws.Detects(r.value.response.outputs, p.secret)
    {
      hide ProveLocal, LooksSafe, WithDigest, MockProofOf, HexEncode, SecretLaws.Detects, SuiteId;
      if worker.Some? {
        SecretLaws.GuardMeans(worker.value.outputs, p.secret);
      }
      LocalProof(sha, p);
      if p.secret == [] {
        match prover {
          case InProcess => return Ok(Proved(p.inputs, ProveLocal(sha, p), "", ""));
          case Remote(answer) =>
            if answer == None {
              return Err(ProverFailed);
            }
            return Ok(Proved(p.inputs, answer.value, "", ""));
        }
      }
      if !c.hasWorker {
        return Err(WorkerUnset);
      }
      if worker == None {
        return Err(WorkerFailed);
      }
      var sealed := worker.value;
      if !LooksSafe(sealed.outputs, p.secret) {
        return Err(SecretLeaked);
      }
      var digestHex := HexEncode(sealed.secretDigest);
      var inputs := WithDigest(p.inputs, digestHex);
      var proof := MockProofOf(sha, p.measurement, inputs, sealed.outputs);
      return Ok(Proved(inputs, ProveResponse(sealed.outputs, proof, SuiteId(Sha256Mock)), "local", digestHex));
    }

    method IssueReceipt(p: Prepared, d: Proved) returns (r: TeeReceipt)
      ensures r == Issue(sha, p, d)
    {
      hide BuildReceipt, NoncePreimage;
      var nonce := p.nonce;
      if p.nonce == [] {
        nonce := sha(NoncePreimage(d.inputs, p.measurement.config));
      }
      r := BuildReceipt(sha, p.measurement, d.inputs, d.response.outputs, nonce, d.response.proofRef, d.response.suite,
                        d.confidentiality, d.digestHex);
    }

    /** The second half of `handleExecute`: the `try` block, and in every case the `finally` that ends the request. */
    method Finish(ghost id: nat, p: Prepared, prover: Prover, worker: Option<Sealed>)
        returns (r: Result<Executed, Failure>)
      requires id in open && open[id] == p
      modifies this, jobs, quotas
      ensures Step(sha, c, old(View()), End(id, prover, worker), View())
      ensures open == old(open) - {id} && quotas.View() == EndRequest(old(quotas.View()))
      ensures r.Ok? ==>
        Complete(sha, c, p, prover, worker) == Ok(r.value.receipt) && r.value.jobId == JobId(sha, r.value.receipt) &&
        issued == old(issued) + [r.value.receipt] && jobs.jobs == old(jobs.jobs)[r.value.jobId := r.value.receipt]
      ensures r.Err? ==>
        Complete(sha, c, p, prover, worker) == Err(r.error) && issued == old(issued) && jobs.jobs == old(jobs.jobs)
      ensures r.Ok? && (prover == InProcess || p.secret != []) ==> MockProved(sha, r.value.receipt)
    {
      hide Complete, JobId, MockProved;
      r := Attempt(p, prover, worker);
      if r.Ok? {
        issued := issued + [r.value.receipt];
      }
      open := open - {id};
      quotas.End();
    }

    /** `handleExecute` without interruption: afterwards no request is left open and the counter is back, whatever the
        outcome. */
    method Execute(ghost id: nat, req: ExecuteRequest, now: nat, prover: Prover, worker: Option<Sealed>)
        returns (r: Result<Executed, Failure>)
      requires id !in open
      modifies this, jobs, quotas
      ensures
        var started := StartStep(sha, c, old(View()), id, req, now);
        View() == if id in started.open then EndStep(sha, c, started, id, prover, worker) else started
      ensures open == old(open) && quotas.inflight == old(quotas.inflight)
      ensures r.Ok? ==>
        issued == old(issued) + [r.value.receipt] && jobs.jobs == old(jobs.jobs)[r.value.jobId := r.value.receipt]
      ensures r.Err? ==> issued == old(issued) && jobs.jobs == old(jobs.jobs)
      ensures r.Ok? && prover == InProcess ==> MockProved(sha, r.value.receipt)
    {
      hide Complete, Prepare, JobId, CheckQuota, MockProved, ProveLaws.Anchored;
      var p := Begin(id, req, now);
      if p.Err? {
        return Err(p.error);
      }
      r := Finish(id, p.value, prover, worker);
    }

    /** `handleAccept`, without its metrics and audit line. */
    method AcceptReceipt(policy: seq<Measurement>, trustProofOk: bool, req: AcceptRequest) returns (outcome: AcceptOutcome)
      ensures outcome == Accept(sha, c, policy, trustProofOk, jobs.jobs, req)
      ensures outcome == Accepted <==>
        ApiKeyOk(c) && ConfidentialityOk(req) &&
        Services.AcceptReceipt(sha, EffectivePolicy(policy, req), req.receipt, ProofOk(sha, trustProofOk, jobs.jobs, req))
          == Accepted
    {
      hide ApiKeyOk, MeasurementOk, FindIssued, MockProofOf, ComputeResultHash, Services.AcceptReceipt, EffectivePolicy,
        ProofOk, ConfidentialityOk, Trim;
      HandlerIsAcceptReceipt(sha, c, policy, trustProofOk, jobs.jobs, req);
      if !ApiKeyOk(c) {
        return NotAuthenticated;
      }
      var r := req.receipt;
      var suite := if r.suite == "" then SuiteId(Sha256Mock) else r.suite;
      var want := Trim(Lean, req.requireConfidentiality);
      if want != "" {
        if r.confidentiality != want {
          return WrongConfidentiality;
        }
        if want == "local" && r.secretDigestHex == "" {
          return MissingDigest;
        }
      }
      if suite != SuiteId(Sha256Mock) && suite != SuiteId(Sha256Sp1) {
        return UnsupportedSuite;
      }
      if !MeasurementOk(policy, req) {
        return NotInPolicy;
      }
      if r.resultHash != ComputeResultHash(sha, r) {
        return HashMismatch;
      }
      var mockOk := r.proofRef == MockProofOf(sha, r.measurement, r.inputs, r.outputs);
      var issued := jobs.Find(r);
      var proofOk := if suite == SuiteId(Sha256Mock) then mockOk else issued || (trustProofOk && req.proofOk);
      if proofOk {
        return Accepted;
      }
      if suite == SuiteId(Sha256Sp1) && !issued && !trustProofOk {
        return Sp1NotVerified;
      }
      return ProofInvalid;
    }
  }
}
