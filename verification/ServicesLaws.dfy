// What the server keeps over every run, however requests interleave.

module ServicesLaws {
  import opened Wrappers
  import opened Text
  import opened Framing
  import opened Hex
  import opened Receipt
  import opened GuestProg
  import opened GuestRun
  import opened Services

  // ---------- The invariant of all reachable states ----------

  /** Every program is stored under the hex of its hash, and parses within the limit. */
  ghost predicate Addressed(sha: Digest, c: Control, programs: map<string, bytes>) {
    forall id :: id in programs ==>
      id == ProgramId(sha, programs[id]) && programs[id] != [] && Parse(Lean, programs[id], c.maxProgramBytes).Ok?
  }

  /** The job store after a sequence of puts. */
  function JobsOf(sha: Digest, issued: seq<TeeReceipt>): map<string, TeeReceipt> {
    if issued == [] then map[]
    else
      var r := issued[|issued| - 1];
      JobsOf(sha, issued[..|issued| - 1])[JobId(sha, r) := r]
  }

  ghost predicate AllBuilt(sha: Digest, issued: seq<TeeReceipt>) {
    forall k :: 0 <= k < |issued| ==> issued[k].resultHash == ComputeResultHash(sha, issued[k])
  }

  ghost predicate Inv(sha: Digest, c: Control, s: State) {
    && Addressed(sha, c, s.programs)
    && s.jobs == JobsOf(sha, s.issued)
    && AllBuilt(sha, s.issued)
    && s.quota.inflight == |s.open|
    && (c.limits.maxInflight.Some? ==> |s.open| <= c.limits.maxInflight.value)
  }

  lemma InitialInv(sha: Digest, c: Control)
    ensures Inv(sha, c, INITIAL)
  {
  }

  lemma LoadKeeps(sha: Digest, c: Control, s: State, raw: bytes)
    requires Inv(sha, c, s)
    ensures Inv(sha, c, LoadStep(sha, c, s, raw))
  {
    hide Parse, JobsOf, AllBuilt, ProgramId;
  }

  lemma StartKeeps(sha: Digest, c: Control, s: State, id: nat, req: ExecuteRequest, now: nat)
    requires Inv(sha, c, s) && id !in s.open
    ensures Inv(sha, c, StartStep(sha, c, s, id, req, now))
  {
    hide Addressed, JobsOf, AllBuilt, Prepare;
    if Prepare(sha, c, s.programs, req).Ok? {
      OpenOne(s.open, id, Prepare(sha, c, s.programs, req).value);
    }
  }

  lemma OpenOne(m: map<nat, Prepared>, id: nat, p: Prepared)
    ensures id !in m ==> |m[id := p]| == |m| + 1
    ensures id in m ==> |m - {id}| == |m| - 1
  {
    if id !in m {
      assert m[id := p].Keys == m.Keys + {id};
    } else {
      assert (m - {id}).Keys == m.Keys - {id};
    }
    assert |m| == |m.Keys| && |m[id := p]| == |m[id := p].Keys| && |m - {id}| == |(m - {id}).Keys|;
  }

  lemma CompletedIsBuilt(sha: Digest, c: Control, p: Prepared, prover: Prover, worker: Option<Sealed>)
    requires Complete(sha, c, p, prover, worker).Ok?
    ensures
      var r := Complete(sha, c, p, prover, worker).value;
      r.resultHash == ComputeResultHash(sha, r)
  {
    hide Prove, LooksSafe, ResultPreimage, Concat, SuiteOr;
  }

  lemma EndKeeps(sha: Digest, c: Control, s: State, id: nat, prover: Prover, worker: Option<Sealed>)
    requires Inv(sha, c, s) && id in s.open
    ensures Inv(sha, c, EndStep(sha, c, s, id, prover, worker))
  {
    hide Addressed, Complete, JobId, ComputeResultHash;
    OpenOne(s.open, id, s.open[id]);
    var outcome := Complete(sha, c, s.open[id], prover, worker);
    if outcome.Ok? {
      var r := outcome.value;
      CompletedIsBuilt(sha, c, s.open[id], prover, worker);
      assert (s.issued + [r])[..|s.issued|] == s.issued;
    }
  }

  lemma StepKeeps(sha: Digest, c: Control, s: State, l: Label, s': State)
    requires Inv(sha, c, s) && Step(sha, c, s, l, s')
    ensures Inv(sha, c, s')
  {
    hide Inv, LoadStep, StartStep, EndStep;
    match l {
      case Load(raw) => LoadKeeps(sha, c, s, raw);
      case Start(id, req, now) => StartKeeps(sha, c, s, id, req, now);
      case End(id, prover, worker) => EndKeeps(sha, c, s, id, prover, worker);
    }
  }

  /** In every state of every run: programs are content-addressed and parse, the job store is what the puts made it, the
      in-flight counter is the number of open requests, and it respects its limit. */
  lemma {:induction false} RunKeeps(sha: Digest, c: Control, ss: seq<State>, ls: seq<Label>, k: nat)
    requires Services.IsRun(sha, c, ss, ls) && k < |ss|
    ensures Inv(sha, c, ss[k])
  {
    hide Inv, Step;
    if k == 0 {
      InitialInv(sha, c);
    } else {
      RunKeeps(sha, c, ss, ls, k - 1);
      StepKeeps(sha, c, ss[k - 1], ls[k - 1], ss[k]);
    }
  }

  /** The saturating decrement of `endRequest` never saturates. */
  lemma EndNeverSaturates(sha: Digest, c: Control, ss: seq<State>, ls: seq<Label>, k: nat)
    requires Services.IsRun(sha, c, ss, ls) && k < |ls| && ls[k].End?
    ensures ss[k].quota.inflight > 0
  {
    hide Addressed, JobsOf, AllBuilt, EndStep;
    RunKeeps(sha, c, ss, ls, k);
    assert Step(sha, c, ss[k], ls[k], ss[k + 1]);
  }

  // ---------- Requests that pass the checks ----------

  /** A request for a registry guest, from a caller whom neither key nor tenant list keeps out. */
  lemma PrepareRegistry(sha: Digest, c: Control, programs: map<string, bytes>, req: ExecuteRequest, g: Guest)
    requires ApiKeyOk(c) && c.acl.tenants == [] && SecretCheck(c, req) == None
    requires req.program == [] && req.programId == "" && ResolveGuest(req.guestId) == Some(g)
    ensures
      var rules := if req.secretInputs != [] && req.configHash == [] then req.secretInputs else req.configHash;
      Prepare(sha, c, programs, req) ==
      Ok(Prepared(g, Measurement(CodeHash(sha, g), sha(rules)), [], rules, req.inputs, req.nonce, req.secretInputs))
  {
    hide ResolveGuest, CodeHash, ApiKeyOk;
  }

  lemma DefaultGuest()
    ensures ResolveGuest([]) == Some(Builtin()[0]) && Builtin()[0].guestId == "compliance_operator"
  {
    TrimFixed(Lean, "");
  }

  lemma RuntimeByName()
    ensures ResolveGuest(Encode(Runtime().guestId)) == Some(Runtime())
  {
    hide Encode, FromUtf8, InputText, Trim;
    var id := "guest_prog_runtime";
    InputTextOfEncode(id);
    assert Trimmed(Lean, id);
    TrimFixed(Lean, id);
    RuntimeIsFifth();
  }

  lemma RuntimeIsFifth()
    ensures FindGuest(Builtin(), "guest_prog_runtime") == Some(Runtime())
  {
    var id, gs := "guest_prog_runtime", Builtin();
    assert forall k :: 0 <= k < 4 ==> gs[k].guestId[0] != id[0];
    assert gs[1..][1..] == gs[2..] && gs[2..][1..] == gs[3..] && gs[3..][1..] == gs[4..];
    assert FindGuest(gs[4..], id) == Some(gs[4]);
    assert FindGuest(gs[3..], id) == Some(gs[4]);
    assert FindGuest(gs[2..], id) == Some(gs[4]);
    assert FindGuest(gs[1..], id) == Some(gs[4]);
  }

  // ---------- Content-addressed programs ----------

  /** Programs and history only grow. */
  ghost predicate Grows(s: State, t: State) {
    (forall id :: id in s.programs ==> id in t.programs) && s.issued <= t.issued
  }

  lemma StepGrows(sha: Digest, c: Control, s: State, l: Label, s': State)
    requires Step(sha, c, s, l, s')
    ensures Grows(s, s')
  {
    hide Prepare, Complete, LoadCheck, JobId, ProgramId;
  }

  lemma {:induction false} RunGrows(sha: Digest, c: Control, ss: seq<State>, ls: seq<Label>, j: nat, k: nat)
    requires Services.IsRun(sha, c, ss, ls) && j <= k < |ss|
    ensures Grows(ss[j], ss[k])
  {
    hide Step;
    if j < k {
      RunGrows(sha, c, ss, ls, j, k - 1);
      StepGrows(sha, c, ss[k - 1], ls[k - 1], ss[k]);
    }
  }

  /** Nothing after the lookup of the program depends on how the request named it. */
  lemma ResolveForgetsId(sha: Digest, c: Control, req: ExecuteRequest, raw: bytes, id: string)
    ensures
      var byId, inline := req.(program := [], programId := id), req.(program := raw);
      SecretCheck(c, byId) == SecretCheck(c, inline) &&
      Resolve(sha, c, byId, Some(raw)) == Resolve(sha, c, inline, Some(raw))
  {
    hide Parse, CodeHash;
  }

  /** Executing by the id of a stored program is executing the bytes that hash to that id, or two programs collide. */
  lemma ById(sha: Digest, c: Control, programs: map<string, bytes>, req: ExecuteRequest, raw: bytes)
    requires Addressed(sha, c, programs)
    requires raw != [] && ProgramId(sha, raw) in programs && ProgramId(sha, raw) != ""
    ensures
      var id := ProgramId(sha, raw);
      Collision(sha, raw, programs[id]) ||
      Prepare(sha, c, programs, req.(program := [], programId := id)) ==
      Prepare(sha, c, programs, req.(program := raw))
  {
    hide Parse, HexEncode, SecretCheck, Resolve, AclAllows;
    var id := ProgramId(sha, raw);
    HexInjective(sha(raw), sha(programs[id]));
    ResolveForgetsId(sha, c, req, raw, id);
  }

  /** Once LoadProgram has accepted some bytes, in every later state an Execute by the returned id prepares the same
      request as an Execute with the bytes inline, hence issues the same receipt, or two programs collide. */
  lemma LoadedRunsAsInline(
      sha: Digest, c: Control, ss: seq<State>, ls: seq<Label>, j: nat, k: nat, raw: bytes, req: ExecuteRequest)
    requires Results32(sha) && Services.IsRun(sha, c, ss, ls) && j < k < |ss|
    requires ls[j] == Load(raw) && LoadCheck(c, raw) == None
    ensures
      var id := ProgramId(sha, raw);
      id in ss[k].programs &&
      (Collision(sha, raw, ss[k].programs[id]) ||
       Prepare(sha, c, ss[k].programs, req.(program := [], programId := id)) ==
       Prepare(sha, c, ss[k].programs, req.(program := raw)))
  {
    hide Prepare, Addressed, JobsOf, AllBuilt, HexEncode;
    var id := ProgramId(sha, raw);
    assert Step(sha, c, ss[j], ls[j], ss[j + 1]);
    RunGrows(sha, c, ss, ls, j + 1, k);
    assert id in ss[j + 1].programs;
    RunKeeps(sha, c, ss, ls, k);
    assert |sha(raw)| == 32;
    assert |id| == 64;
    LoadedIsNotEmpty(c, raw);
    ById(sha, c, ss[k].programs, req, raw);
  }

  lemma LoadedIsNotEmpty(c: Control, raw: bytes)
    ensures LoadCheck(c, raw) == None ==> raw != []
  {
    hide Parse;
  }

  // ---------- Issued receipts ----------

  /** No two of these receipts have colliding result or job preimages. */
  ghost predicate CollisionFree(sha: Digest, issued: seq<TeeReceipt>) {
    forall r, s :: r in issued && s in issued ==>
      !Collision(sha, ResultPreimage(Sha256Mock, ClaimOf(r)), ResultPreimage(Sha256Mock, ClaimOf(s))) &&
      !Collision(sha, JobPreimage(r), JobPreimage(s))
  }

  predicate SmallReceipt(r: TeeReceipt) {
    SmallClaim(ClaimOf(r)) && |r.resultHash| < 0x1_0000_0000
  }

  ghost predicate AllSmall(issued: seq<TeeReceipt>) {
    forall k :: 0 <= k < |issued| ==> SmallReceipt(issued[k])
  }

  /** The stored receipts were issued, each under its own id; every issued id is taken. */
  lemma {:induction false} JobsHoldIssued(sha: Digest, issued: seq<TeeReceipt>)
    ensures forall id :: id in JobsOf(sha, issued) ==>
              JobsOf(sha, issued)[id] in issued && id == JobId(sha, JobsOf(sha, issued)[id])
    ensures forall r :: r in issued ==> JobId(sha, r) in JobsOf(sha, issued)
  {
    hide JobId;
    if issued != [] {
      JobsHoldIssued(sha, issued[..|issued| - 1]);
    }
  }

  /** The preimages of nonces, job ids and reasons are of one shape: they coincide exactly when the fields do. */
  lemma TwoChunkPreimages(
      inputs: bytes, config: bytes, inputs': bytes, config': bytes, r: TeeReceipt)
    requires Small([inputs, config]) && Small([inputs', config']) && Small([r.nonce, r.resultHash])
    ensures NoncePreimage(inputs, config) == JobPreimage(r) <==> inputs == r.nonce && config == r.resultHash
    ensures Concat([config, inputs]) == JobPreimage(r) <==> config == r.nonce && inputs == r.resultHash
    ensures Concat([config, inputs]) == NoncePreimage(inputs', config') <==> config == inputs' && inputs == config'
  {
    hide Concat, Small;
    SmallSwap(inputs, config);
    PairPreimage(inputs, config, r.nonce, r.resultHash);
    PairPreimage(config, inputs, r.nonce, r.resultHash);
    PairPreimage(config, inputs, inputs', config');
  }

  lemma SmallSwap(a: bytes, b: bytes)
    ensures Small([a, b]) <==> Small([b, a])
  {
    assert [a, b][0] == [b, a][1] && [a, b][1] == [b, a][0];
  }

  /** Receipts with the same id or the same result hash are about the same claim. */
  lemma SameIdSameClaim(sha: Digest, issued: seq<TeeReceipt>, r: TeeReceipt, s: TeeReceipt)
    requires AllBuilt(sha, issued) && CollisionFree(sha, issued) && AllSmall(issued)
    requires r in issued && s in issued
    ensures JobId(sha, r) == JobId(sha, s) ==> r.resultHash == s.resultHash
    ensures r.resultHash == s.resultHash ==> ClaimOf(r) == ClaimOf(s) && JobId(sha, r) == JobId(sha, s)
  {
    hide HexEncode, ResultPreimage, SmallClaim, Concat;
    assert SmallReceipt(r) && SmallReceipt(s);
    assert !Collision(sha, JobPreimage(r), JobPreimage(s));
    assert !Collision(sha, ResultPreimage(Sha256Mock, ClaimOf(r)), ResultPreimage(Sha256Mock, ClaimOf(s)));
    if JobId(sha, r) == JobId(sha, s) {
      HexInjective(sha(JobPreimage(r)), sha(JobPreimage(s)));
      SmallPair(r);
      SmallPair(s);
      PairPreimage(r.nonce, r.resultHash, s.nonce, s.resultHash);
    }
    if r.resultHash == s.resultHash {
      ResultPreimageInjective(Sha256Mock, ClaimOf(r), ClaimOf(s));
    }
  }

  lemma SmallPair(r: TeeReceipt)
    requires SmallReceipt(r)
    ensures Small([r.nonce, r.resultHash])
  {
  }

  /** An issued receipt is still found exactly when the last receipt put under its id has its proof reference. */
  lemma FoundIffLastProof(sha: Digest, issued: seq<TeeReceipt>, r: TeeReceipt)
    requires AllBuilt(sha, issued) && CollisionFree(sha, issued) && AllSmall(issued) && r in issued
    ensures JobId(sha, r) in JobsOf(sha, issued)
    ensures FindIssued(JobsOf(sha, issued), r) <==> JobsOf(sha, issued)[JobId(sha, r)].proofRef == r.proofRef
  {
    hide JobId, JobsOf, AllBuilt, CollisionFree, AllSmall;
    JobsHoldIssued(sha, issued);
    var jobs := JobsOf(sha, issued);
    var last := jobs[JobId(sha, r)];
    SameIdSameClaim(sha, issued, r, last);
    if FindIssued(jobs, r) {
      var id :| id in jobs && SameEvidence(jobs[id], r);
      SameIdSameClaim(sha, issued, jobs[id], r);
    }
    if last.proofRef == r.proofRef {
      assert SameEvidence(last, r);
    }
  }

  /** The proof reference is a function of measurement, inputs and outputs, as `mockProof` is. */
  ghost predicate ProofsDetermined(issued: seq<TeeReceipt>) {
    forall r, s :: (r in issued && s in issued && r.measurement == s.measurement && r.inputs == s.inputs &&
                    r.outputs == s.outputs) ==> r.proofRef == s.proofRef
  }

  /** Then, over every run and despite overwrites, every receipt ever issued is found in every later state. */
  lemma IssuedStaysFound(sha: Digest, c: Control, ss: seq<State>, ls: seq<Label>, j: nat, k: nat, r: TeeReceipt)
    requires Services.IsRun(sha, c, ss, ls) && j <= k < |ss| && r in ss[j].issued
    requires CollisionFree(sha, ss[k].issued) && AllSmall(ss[k].issued) && ProofsDetermined(ss[k].issued)
    ensures FindIssued(ss[k].jobs, r)
  {
    hide Addressed, JobsOf, JobId, FindIssued, CollisionFree, AllSmall, Services.IsRun;
    RunGrows(sha, c, ss, ls, j, k);
    RunKeeps(sha, c, ss, ls, k);
    var issued := ss[k].issued;
    assert ss[j].issued <= issued;
    assert r in issued;
    FoundIffLastProof(sha, issued, r);
    JobsHoldIssued(sha, issued);
    var last := JobsOf(sha, issued)[JobId(sha, r)];
    SameIdSameClaim(sha, issued, r, last);
  }

  /** Without that, a second Execute of the same request with another proof makes the first receipt unknown. */
  lemma NewProofEvicts(sha: Digest, issued: seq<TeeReceipt>, r: TeeReceipt, proof: bytes)
    requires r in issued && proof != r.proofRef
    requires
      var all := issued + [r.(proofRef := proof)];
      AllBuilt(sha, all) && CollisionFree(sha, all) && AllSmall(all)
    ensures !FindIssued(JobsOf(sha, issued + [r.(proofRef := proof)]), r)
  {
    hide FindIssued, CollisionFree, AllSmall, AllBuilt, HexEncode, Concat;
    var s := r.(proofRef := proof);
    var all := issued + [s];
    assert r in all;
    assert all[|all| - 1] == s && all[..|all| - 1] == issued;
    FoundIffLastProof(sha, all, r);
    assert JobId(sha, s) == JobId(sha, r);
  }

  /** Putting another receipt of the same claim takes the place of the first, labels and all. */
  lemma SameClaimReplaces(sha: Digest, issued: seq<TeeReceipt>, r: TeeReceipt, s: TeeReceipt)
    requires AllBuilt(sha, issued + [s]) && r in issued && ClaimOf(r) == ClaimOf(s)
    ensures JobId(sha, s) == JobId(sha, r)
    ensures JobsOf(sha, issued + [s]) == JobsOf(sha, issued)[JobId(sha, r) := s]
    ensures JobsOf(sha, issued + [s]) == JobsOf(sha, issued) <==>
            JobId(sha, r) in JobsOf(sha, issued) && JobsOf(sha, issued)[JobId(sha, r)] == s
  {
    hide HexEncode, Concat, ResultPreimage;
    var all := issued + [s];
    assert all[|all| - 1] == s && all[..|issued|] == issued;
    var k :| 0 <= k < |issued| && issued[k] == r;
    assert all[k] == r;
    JobsHoldIssued(sha, issued);
    var jobs, id := JobsOf(sha, issued), JobId(sha, r);
    if jobs[id := s] == jobs {
      assert jobs[id := s][id] == s;
    }
  }

  // ---------- Accept ----------

  lemma SuiteIdsDiffer()
    ensures SuiteId(Sha256Mock) != SuiteId(Sha256Sp1) && SuiteId(Sha256Mock) != ""
  {
    assert SuiteId(Sha256Mock)[7] != SuiteId(Sha256Sp1)[7];
  }

  lemma MockSuiteKept()
    ensures SuiteOr(SuiteId(Sha256Mock)) == SuiteId(Sha256Mock)
  {
    hide Trim;
    assert Trimmed(Lean, SuiteId(Sha256Mock));
    TrimFixed(Lean, SuiteId(Sha256Mock));
    SuiteIdsDiffer();
  }

  /** A receipt that Execute proved itself, in process or in the sealed worker. */
  ghost predicate MockProved(sha: Digest, r: TeeReceipt) {
    r.suite == SuiteId(Sha256Mock) && r.resultHash == ComputeResultHash(sha, r) &&
    r.proofRef == MockProofOf(sha, r.measurement, r.inputs, r.outputs)
  }

  lemma LocalIsMockProved(sha: Digest, c: Control, p: Prepared, prover: Prover, worker: Option<Sealed>)
    requires Complete(sha, c, p, prover, worker).Ok? && (prover == InProcess || p.secret != [])
    ensures MockProved(sha, Complete(sha, c, p, prover, worker).value)
  {
    hide LooksSafe, ResultPreimage, MockPreimage, Concat, SuiteOr, LocalOutputs, SuiteId, WithDigest, HexEncode;
    MockSuiteKept();
  }

  /** Accept says yes to such a receipt, in any state, exactly when the caller may ask and the policy and the
      confidentiality requirement allow it. */
  lemma MockReceiptAccepted(
      sha: Digest, c: Control, policy: seq<Measurement>, trustProofOk: bool, jobs: map<string, TeeReceipt>,
      req: AcceptRequest)
    requires MockProved(sha, req.receipt)
    ensures Accept(sha, c, policy, trustProofOk, jobs, req) == Accepted <==>
            ApiKeyOk(c) && ConfidentialityOk(req) && MeasurementOk(policy, req)
  {
    hide Trim, SuiteId, ResultPreimage, MockPreimage, FindIssued, MeasurementOk, ApiKeyOk;
    SuiteIdsDiffer();
  }

  /** Accept says yes to an SP1 receipt with a matching hash exactly when a receipt with the same evidence is in the store,
      whatever suite that one was issued under, or the operator trusts the caller's own check. */
  lemma Sp1ReceiptAccepted(
      sha: Digest, c: Control, policy: seq<Measurement>, trustProofOk: bool, jobs: map<string, TeeReceipt>,
      req: AcceptRequest)
    requires req.receipt.suite == SuiteId(Sha256Sp1) && req.receipt.resultHash == ComputeResultHash(sha, req.receipt)
    ensures Accept(sha, c, policy, trustProofOk, jobs, req) == Accepted <==>
            ApiKeyOk(c) && ConfidentialityOk(req) && MeasurementOk(policy, req) &&
            (FindIssued(jobs, req.receipt) || (trustProofOk && req.proofOk))
  {
    hide Trim, ResultPreimage, MockPreimage, FindIssued, MeasurementOk, ApiKeyOk;
    SuiteIdsDiffer();
  }

  /** Suite, confidentiality and secret digest are in no hash and in no comparison of the store. */
  lemma LabelsAreNotBound(
      sha: Digest, jobs: map<string, TeeReceipt>, r: TeeReceipt, suite: string, confidentiality: string, digestHex: string)
    ensures
      var s := r.(suite := suite, confidentiality := confidentiality, secretDigestHex := digestHex);
      ComputeResultHash(sha, s) == ComputeResultHash(sha, r) && JobId(sha, s) == JobId(sha, r) &&
      (FindIssued(jobs, s) <==> FindIssued(jobs, r))
  {
    hide HexEncode, ResultPreimage, Concat;
    var s := r.(suite := suite, confidentiality := confidentiality, secretDigestHex := digestHex);
    if FindIssued(jobs, r) {
      var id :| id in jobs && SameEvidence(jobs[id], r);
      assert SameEvidence(jobs[id], s);
    }
    if FindIssued(jobs, s) {
      var id :| id in jobs && SameEvidence(jobs[id], s);
      assert SameEvidence(jobs[id], r);
    }
  }

  /** A receipt relabelled as SP1 is accepted without any trust exactly when the receipt itself is in the store. */
  lemma RelabelledSp1Accepted(
      sha: Digest, c: Control, policy: seq<Measurement>, jobs: map<string, TeeReceipt>, req: AcceptRequest, r: TeeReceipt)
    requires r.resultHash == ComputeResultHash(sha, r) && req.receipt == r.(suite := SuiteId(Sha256Sp1))
    ensures Accept(sha, c, policy, false, jobs, req) == Accepted <==>
            ApiKeyOk(c) && ConfidentialityOk(req) && MeasurementOk(policy, req) && FindIssued(jobs, r)
  {
    hide Accept, ApiKeyOk, ConfidentialityOk, MeasurementOk, FindIssued, ComputeResultHash, JobId, SuiteId;
    LabelsAreNotBound(sha, jobs, r, SuiteId(Sha256Sp1), r.confidentiality, r.secretDigestHex);
    assert req.receipt == r.(suite := SuiteId(Sha256Sp1), confidentiality := r.confidentiality,
                             secretDigestHex := r.secretDigestHex);
    Sp1ReceiptAccepted(sha, c, policy, false, jobs, req);
  }

  /** A mock receipt relabelled as local passes a requirement of local confidentiality exactly when some digest text is
      written into it. */
  lemma RelabelledLocalAccepted(
      sha: Digest, c: Control, policy: seq<Measurement>, trustProofOk: bool, jobs: map<string, TeeReceipt>,
      req: AcceptRequest, r: TeeReceipt, digestHex: string)
    requires MockProved(sha, r) && req.receipt == r.(confidentiality := "local", secretDigestHex := digestHex)
    requires Trim(Lean, req.requireConfidentiality) == "local"
    ensures Accept(sha, c, policy, trustProofOk, jobs, req) == Accepted <==>
            ApiKeyOk(c) && MeasurementOk(policy, req) && digestHex != ""
  {
    hide Accept, ApiKeyOk, MeasurementOk, FindIssued, Trim, ResultPreimage, MockPreimage;
    MockReceiptAccepted(sha, c, policy, trustProofOk, jobs, req);
  }

  /** The measurements that the request and the server's policy file admit together: the one the request names and, if it
      names none, those of the file, where an empty file admits all. */
  function EffectivePolicy(policy: seq<Measurement>, req: AcceptRequest): seq<Measurement> {
    [Measurement(req.policyCode, req.policyConfig)] +
    (if req.policyCode != [] || req.policyConfig != [] then []
     else if policy == [] then [req.receipt.measurement]
     else policy)
  }

  /** The proof verdict: recomputed for a mock receipt; for SP1, issued here or vouched for by a trusted caller. */
  function ProofOk(sha: Digest, trustProofOk: bool, jobs: map<string, TeeReceipt>, req: AcceptRequest): bool {
    var r := req.receipt;
    if r.suite == "" || r.suite == SuiteId(Sha256Mock) then
      r.proofRef == MockProofOf(sha, r.measurement, r.inputs, r.outputs)
    else FindIssued(jobs, r) || (trustProofOk && req.proofOk)
  }

  lemma EffectivePolicyAllows(policy: seq<Measurement>, req: AcceptRequest)
    ensures MeasurementOk(policy, req) <==> req.receipt.measurement in EffectivePolicy(policy, req)
  {
  }

  /** `handleAccept` says yes exactly when the caller may ask, the confidentiality requirement is met, and `acceptReceipt`
      says yes under the effective policy with this proof verdict. */
  lemma HandlerIsAcceptReceipt(
      sha: Digest, c: Control, policy: seq<Measurement>, trustProofOk: bool, jobs: map<string, TeeReceipt>,
      req: AcceptRequest)
    ensures Accept(sha, c, policy, trustProofOk, jobs, req) == Accepted <==>
            ApiKeyOk(c) && ConfidentialityOk(req) &&
            AcceptReceipt(sha, EffectivePolicy(policy, req), req.receipt, ProofOk(sha, trustProofOk, jobs, req)) == Accepted
  {
    hide Trim, ComputeResultHash, MockProofOf, FindIssued, MeasurementOk, ApiKeyOk, EffectivePolicy;
    SuiteIdsDiffer();
    EffectivePolicyAllows(policy, req);
  }

  /** The Rust library's verdict on a receipt of the default suite, in the host's terms. */
  lemma RustVerdict(sha: Digest, blake: Digest, r: TeeReceipt)
    requires r.suite == "" || r.suite == SuiteId(Sha256Mock)
    ensures AcceptMock(Hashes(sha, blake), r.suite, ClaimOf(r), r.resultHash, r.proofRef) == None <==>
            r.resultHash == ComputeResultHash(sha, r) && r.proofRef == MockProofOf(sha, r.measurement, r.inputs, r.outputs)
  {
    hide AcceptMock, SuiteId, ParseSuite, ResultPreimage, Concat, Encode;
    SuiteIdFacts(Sha256Mock);
    EmptyIsSha256Mock();
    AcceptMockMeans(Hashes(sha, blake), r.suite, ClaimOf(r), r.resultHash, r.proofRef);
    assert MockChunks(Sha256Mock, ClaimOf(r)) ==
           MockChunks(Sha256Mock, Claim(r.measurement.code, r.measurement.config, r.inputs, r.outputs, []));
  }

  /** The host without policy or history accepts exactly the receipts that the Rust library accepts and whose suite is
      written as the empty text or literally "sha256+mock"; the library also knows BLAKE3, profile names and padding. */
  lemma HostsAgree(sha: Digest, blake: Digest, c: Control, r: TeeReceipt)
    ensures
      Accept(sha, c, [], false, map[], AcceptRequest(r, [], [], false, "")) == Accepted <==>
      ApiKeyOk(c) && (r.suite == "" || r.suite == SuiteId(Sha256Mock)) &&
      AcceptMock(Hashes(sha, blake), r.suite, ClaimOf(r), r.resultHash, r.proofRef) == None
  {
    hide Accept, Trim, ApiKeyOk, AcceptMock, SuiteId, ComputeResultHash, MockProofOf, FindIssued;
    var req := AcceptRequest(r, [], [], false, "");
    HandlerIsAcceptReceipt(sha, c, [], false, map[], req);
    TrimFixed(Lean, "");
    NothingIssued(r);
    assert [Measurement([], [])] + [r.measurement] == EffectivePolicy([], req);
    if r.suite == "" || r.suite == SuiteId(Sha256Mock) {
      RustVerdict(sha, blake, r);
    }
  }

  lemma NothingIssued(r: TeeReceipt)
    ensures !FindIssued(map[], r)
  {
  }

  /** Whatever Accept says yes to has the evidence of its own fields: two accepted receipts with one result hash are about
      the same claim, or their preimages collide. */
  lemma AcceptedIsBound(
      sha: Digest, c: Control, policy: seq<Measurement>, trustProofOk: bool, jobs: map<string, TeeReceipt>,
      req: AcceptRequest, req': AcceptRequest)
    requires Accept(sha, c, policy, trustProofOk, jobs, req) == Accepted
    requires Accept(sha, c, policy, trustProofOk, jobs, req') == Accepted
    requires req.receipt.resultHash == req'.receipt.resultHash
    requires SmallReceipt(req.receipt) && SmallReceipt(req'.receipt)
    ensures
      var x, y := ClaimOf(req.receipt), ClaimOf(req'.receipt);
      x == y || Collision(sha, ResultPreimage(Sha256Mock, x), ResultPreimage(Sha256Mock, y))
  {
    hide Trim, SuiteId, ResultPreimage, MockPreimage, FindIssued, MeasurementOk, ApiKeyOk, SmallClaim;
    var x, y := ClaimOf(req.receipt), ClaimOf(req'.receipt);
    if ResultPreimage(Sha256Mock, x) == ResultPreimage(Sha256Mock, y) {
      ResultPreimageInjective(Sha256Mock, x, y);
    }
  }

  // ---------- A stored program that no longer parses ----------

  /** The report of a run is never the parse-error denial: it continues with a hexadecimal digit. */
  lemma ReportIsNotParseError(sha: Digest, allowed: bool, config: bytes, inputs: bytes)
    requires Results32(sha)
    ensures Report(sha, allowed, config, inputs) != ParseErrorOutput()
  {
    hide Encode, Report;
    assert HexVal("parse_error"[0]) == None;
    ReportIsNotFixed(sha, allowed, config, inputs, "parse_error");
    assert "decision=deny\nreason=" + "parse_error" + "\n" == "decision=deny\nreason=parse_error\n";
  }

  /** A program that LoadProgram and Execute accept under a raised limit is nevertheless run as a parse error exactly when
      it is longer than the default limit, because the in-process prover parses again with the default. */
  lemma LongProgramsRunAsParseError(sha: Digest, c: Control, programs: map<string, bytes>, req: ExecuteRequest)
    requires Results32(sha)
    requires Prepare(sha, c, programs, req).Ok? && ResolveProgram(programs, req).Ok?
    requires ResolveProgram(programs, req).value.Some?
    ensures
      var p := Prepare(sha, c, programs, req).value;
      LocalOutputs(sha, p) == ParseErrorOutput() <==> |p.program| > DEFAULT_MAX_PROGRAM_BYTES
  {
    hide SecretCheck, ResolveGuest, AclAllows, CodeHash, ParseText, FromUtf8, Report, ParseErrorOutput, Serialize, Allowed,
      ApiKeyOk, Results32;
    var p := Prepare(sha, c, programs, req).value;
    var bytes := p.program;
    if |bytes| <= DEFAULT_MAX_PROGRAM_BYTES {
      var prog := Parse(Lean, bytes, DEFAULT_MAX_PROGRAM_BYTES).value;
      ReportIsNotParseError(sha, Allowed(Lean, prog, p.inputs), sha(Encode(Serialize(prog))), p.inputs);
    }
  }
}
