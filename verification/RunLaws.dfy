// Whole runs of the server: the rate limit, and receipts that stay accepted.

module RunLaws {
  import opened Wrappers
  import opened Text
  import opened Framing
  import opened GuestProg
  import opened GuestRun
  import opened Hex
  import opened Receipt
  import opened Quotas
  import opened Services
  import opened ServicesLaws

  // ---------- The rate limit ----------

  /** What one step means to the quota: a request that reaches the check, the end of one, or nothing. */
  function EventOf(sha: Digest, c: Control, s: State, l: Label): seq<Event> {
    match l
    case Load(_) => []
    case Start(_, req, now) => if Prepare(sha, c, s.programs, req).Ok? then [Request(now)] else []
    case End(_, _, _) => [Finish]
  }

  function EventsOf(sha: Digest, c: Control, ss: seq<State>, ls: seq<Label>, k: nat): seq<Event>
    requires k <= |ls| && k <= |ss|
    decreases k
  {
    if k == 0 then [] else EventsOf(sha, c, ss, ls, k - 1) + EventOf(sha, c, ss[k - 1], ls[k - 1])
  }

  /** The times of the Executes that were admitted, hence begun, in the first `k` steps. */
  function AdmittedTimes(ss: seq<State>, ls: seq<Label>, k: nat): seq<nat>
    requires k <= |ls| && |ss| == |ls| + 1
    decreases k
  {
    if k == 0 then []
    else
      AdmittedTimes(ss, ls, k - 1) +
      (if ls[k - 1].Start? && ls[k - 1].id in ss[k].open then [ls[k - 1].now] else [])
  }

  lemma RunOne(l: Limits, t: Trace, e: Event)
    ensures RunEvents(l, t, [e]) == StepEvent(l, t, e)
    ensures RunEvents(l, t, []) == t
  {
    assert [e][1..] == [];
  }

  /** One step of the server is one event of the quota. */
  lemma StepIsEvent(sha: Digest, c: Control, s: State, l: Label, s': State, times: seq<nat>)
    requires Step(sha, c, s, l, s')
    ensures RunEvents(c.limits, Trace(s.quota, times), EventOf(sha, c, s, l)) ==
            Trace(s'.quota, times + (if l.Start? && l.id in s'.open then [l.now] else []))
  {
    hide Prepare, Complete, CheckQuota, JobId, LoadCheck;
    RunOne(c.limits, Trace(s.quota, times), if l.Start? then Request(l.now) else Finish);
  }

  lemma {:induction false} RunIsTrace(sha: Digest, c: Control, ss: seq<State>, ls: seq<Label>, k: nat)
    requires Services.IsRun(sha, c, ss, ls) && k <= |ls|
    ensures RunEvents(c.limits, Trace(FRESH, []), EventsOf(sha, c, ss, ls, k)) ==
            Trace(ss[k].quota, AdmittedTimes(ss, ls, k))
    decreases k
  {
    hide Step, EventOf, RunEvents;
    if k == 0 {
      RunOne(c.limits, Trace(FRESH, []), Finish);
    } else {
      RunIsTrace(sha, c, ss, ls, k - 1);
      StepIsEvent(sha, c, ss[k - 1], ls[k - 1], ss[k], AdmittedTimes(ss, ls, k - 1));
      RunAppend(c.limits, Trace(FRESH, []), EventsOf(sha, c, ss, ls, k - 1), EventOf(sha, c, ss[k - 1], ls[k - 1]));
    }
  }

  /** The server's clock never runs backwards from one request to a later one. */
  ghost predicate ClockMonotone(ls: seq<Label>) {
    forall i, j :: 0 <= i < j < |ls| && ls[i].Start? && ls[j].Start? ==> ls[i].now <= ls[j].now
  }

  lemma {:induction false} MonotoneSnoc(es: seq<Event>, clock: nat, e: Event)
    requires Monotone(es, clock)
    requires e.Request? ==> clock <= e.now
    requires e.Request? ==> forall k :: 0 <= k < |es| && es[k].Request? ==> es[k].now <= e.now
    ensures Monotone(es + [e], clock)
    decreases es
  {
    if es == [] {
      assert es + [e] == [e] && [e][1..] == [];
    } else {
      assert (es + [e])[1..] == es[1..] + [e];
      forall k | 0 <= k < |es[1..]| && es[1..][k].Request? && e.Request?
        ensures es[1..][k].now <= e.now
      {
        assert es[1..][k] == es[k + 1];
      }
      MonotoneSnoc(es[1..], if es[0].Request? then es[0].now else clock, e);
    }
  }

  lemma {:induction false} EventsMonotone(sha: Digest, c: Control, ss: seq<State>, ls: seq<Label>, k: nat, t: nat)
    requires k <= |ls| && k <= |ss| && ClockMonotone(ls)
    requires forall i :: 0 <= i < k && ls[i].Start? ==> ls[i].now <= t
    ensures Monotone(EventsOf(sha, c, ss, ls, k), 0)
    ensures forall i :: 0 <= i < |EventsOf(sha, c, ss, ls, k)| && EventsOf(sha, c, ss, ls, k)[i].Request? ==>
              EventsOf(sha, c, ss, ls, k)[i].now <= t
    decreases k
  {
    hide Prepare, Monotone;
    if k == 0 {
      assert Monotone([], 0) by { NoEventsMonotone(); }
    } else {
      var l := ls[k - 1];
      var latest := if l.Start? then l.now else t;
      EventsMonotone(sha, c, ss, ls, k - 1, latest);
      var es, e := EventsOf(sha, c, ss, ls, k - 1), EventOf(sha, c, ss[k - 1], l);
      assert e != [] ==> |e| == 1 && (e[0].Request? ==> l.Start? && e[0].now == l.now);
      assert forall i :: 0 <= i < |es| && es[i].Request? ==> es[i].now <= latest;
      if e == [] {
        assert es + e == es;
      } else {
        MonotoneSnoc(es, 0, e[0]);
        assert e == [e[0]];
      }
    }
  }

  lemma NoEventsMonotone()
    ensures Monotone([], 0)
  {
  }

  /** With max_rps = L and a monotone clock, every half-open second of every run of the server admits at most 2·L
      Executes, whatever is loaded, fails or ends in between. */
  lemma ServerRateBound(sha: Digest, c: Control, ss: seq<State>, ls: seq<Label>, k: nat, from: nat)
    requires Services.IsRun(sha, c, ss, ls) && k <= |ls|
    requires c.limits.maxRps.Some? && ClockMonotone(ls)
    ensures InSecond(AdmittedTimes(ss, ls, k), from) <= 2 * c.limits.maxRps.value
  {
    hide Step, RunEvents, Monotone, InSecond, EventsOf, AdmittedTimes;
    var t := LatestTime(ls);
    EventsMonotone(sha, c, ss, ls, k, t);
    RunIsTrace(sha, c, ss, ls, k);
    RateBound(c.limits, EventsOf(sha, c, ss, ls, k), from);
  }

  lemma {:induction false} LatestTime(ls: seq<Label>) returns (t: nat)
    ensures forall i :: 0 <= i < |ls| && ls[i].Start? ==> ls[i].now <= t
  {
    if ls == [] {
      t := 0;
    } else {
      t := LatestTime(ls[..|ls| - 1]);
      var last := ls[|ls| - 1];
      if last.Start? && last.now > t {
        t := last.now;
      }
      forall i | 0 <= i < |ls| && ls[i].Start?
        ensures ls[i].now <= t
      {
        assert i < |ls| - 1 ==> ls[..|ls| - 1][i] == ls[i];
      }
    }
  }

  // ---------- Receipts stay accepted ----------

  /** All proving was done in process, or in the sealed worker. */
  ghost predicate LocalRun(ls: seq<Label>) {
    forall k :: 0 <= k < |ls| && ls[k].End? ==> ls[k].prover == InProcess
  }

  ghost predicate AllMockProved(sha: Digest, issued: seq<TeeReceipt>) {
    forall r :: r in issued ==> MockProved(sha, r)
  }

  lemma {:induction false} LocalRunProves(sha: Digest, c: Control, ss: seq<State>, ls: seq<Label>, k: nat)
    requires Services.IsRun(sha, c, ss, ls) && k < |ss| && LocalRun(ls)
    ensures AllMockProved(sha, ss[k].issued)
    decreases k
  {
    hide Step, AllMockProved;
    if k == 0 {
      assert AllMockProved(sha, []) by { NothingToProve(sha); }
    } else {
      LocalRunProves(sha, c, ss, ls, k - 1);
      LocalStepProves(sha, c, ss[k - 1], ls[k - 1], ss[k]);
    }
  }

  lemma NothingToProve(sha: Digest)
    ensures AllMockProved(sha, [])
  {
  }

  lemma LocalStepProves(sha: Digest, c: Control, s: State, l: Label, s': State)
    requires Step(sha, c, s, l, s') && (l.End? ==> l.prover == InProcess)
    requires AllMockProved(sha, s.issued)
    ensures AllMockProved(sha, s'.issued)
  {
    hide MockProved, Complete, Prepare, LoadCheck, JobId, CheckQuota;
    if l.End? && Complete(sha, c, s.open[l.id], l.prover, l.worker).Ok? {
      LocalIsMockProved(sha, c, s.open[l.id], l.prover, l.worker);
    }
  }

  /** Mock proofs are determined by measurement, inputs and outputs. */
  lemma MockProofsDetermined(sha: Digest, issued: seq<TeeReceipt>)
    requires AllMockProved(sha, issued)
    ensures ProofsDetermined(issued)
  {
    hide MockProofOf, ComputeResultHash;
  }

  /** A server that proves locally: every receipt it ever issued is found, and accepted whenever the caller may ask and
      the policy allows it, in every later state of every run, or two of the receipts collide. */
  lemma LocalReceiptsStayAccepted(
      sha: Digest, c: Control, ss: seq<State>, ls: seq<Label>, j: nat, k: nat, policy: seq<Measurement>,
      trustProofOk: bool, req: AcceptRequest)
    requires Services.IsRun(sha, c, ss, ls) && LocalRun(ls) && j <= k < |ss| && req.receipt in ss[j].issued
    requires CollisionFree(sha, ss[k].issued) && AllSmall(ss[k].issued)
    ensures FindIssued(ss[k].jobs, req.receipt)
    ensures Accept(sha, c, policy, trustProofOk, ss[k].jobs, req) == Accepted <==>
            ApiKeyOk(c) && ConfidentialityOk(req) && MeasurementOk(policy, req)
  {
    hide Services.IsRun, CollisionFree, AllSmall, FindIssued, Accept, MockProved, ProofsDetermined, ConfidentialityOk,
      MeasurementOk, ApiKeyOk, LocalRun;
    LocalRunProves(sha, c, ss, ls, k);
    LocalRunProves(sha, c, ss, ls, j);
    MockProofsDetermined(sha, ss[k].issued);
    IssuedStaysFound(sha, c, ss, ls, j, k, req.receipt);
    MockReceiptAccepted(sha, c, policy, trustProofOk, ss[k].jobs, req);
  }

  /** A server with a remote SP1 prover whose proof reference is a function of measurement, inputs and outputs: the same
      for every SP1 receipt it issued, without any trust in the caller's own check. */
  lemma Sp1ReceiptsStayAccepted(
      sha: Digest, c: Control, ss: seq<State>, ls: seq<Label>, j: nat, k: nat, policy: seq<Measurement>,
      trustProofOk: bool, req: AcceptRequest)
    requires Services.IsRun(sha, c, ss, ls) && j <= k < |ss| && req.receipt in ss[j].issued
    requires req.receipt.suite == SuiteId(Sha256Sp1)
    requires CollisionFree(sha, ss[k].issued) && AllSmall(ss[k].issued) && ProofsDetermined(ss[k].issued)
    ensures Accept(sha, c, policy, trustProofOk, ss[k].jobs, req) == Accepted <==>
            ApiKeyOk(c) && ConfidentialityOk(req) && MeasurementOk(policy, req)
  {
    hide Services.IsRun, CollisionFree, AllSmall, FindIssued, Accept, ProofsDetermined, ConfidentialityOk, MeasurementOk,
      ApiKeyOk, JobsOf, ComputeResultHash, Addressed;
    IssuedStaysFound(sha, c, ss, ls, j, k, req.receipt);
    RunKeeps(sha, c, ss, ls, j);
    BuiltMeans(sha, ss[j].issued, req.receipt);
    Sp1ReceiptAccepted(sha, c, policy, trustProofOk, ss[k].jobs, req);
  }

  lemma BuiltMeans(sha: Digest, issued: seq<TeeReceipt>, r: TeeReceipt)
    requires AllBuilt(sha, issued) && r in issued
    ensures r.resultHash == ComputeResultHash(sha, r)
  {
    hide ComputeResultHash;
  }

  /** On a locally proving server every receipt it ever issued is also accepted relabelled as an SP1 receipt, without any
      trust in the caller: neither hash nor store knows the suite. */
  lemma LocalReceiptsPassAsSp1(
      sha: Digest, c: Control, ss: seq<State>, ls: seq<Label>, j: nat, k: nat, policy: seq<Measurement>,
      req: AcceptRequest, r: TeeReceipt)
    requires Services.IsRun(sha, c, ss, ls) && LocalRun(ls) && j <= k < |ss| && r in ss[j].issued
    requires CollisionFree(sha, ss[k].issued) && AllSmall(ss[k].issued)
    requires req.receipt == r.(suite := SuiteId(Sha256Sp1))
    ensures Accept(sha, c, policy, false, ss[k].jobs, req) == Accepted <==>
            ApiKeyOk(c) && ConfidentialityOk(req) && MeasurementOk(policy, req)
  {
    hide Services.IsRun, CollisionFree, AllSmall, FindIssued, Accept, ProofsDetermined, ConfidentialityOk, MeasurementOk,
      ApiKeyOk, LocalRun, JobsOf, ComputeResultHash, Addressed, AllMockProved;
    LocalRunProves(sha, c, ss, ls, k);
    MockProofsDetermined(sha, ss[k].issued);
    IssuedStaysFound(sha, c, ss, ls, j, k, r);
    RunKeeps(sha, c, ss, ls, j);
    BuiltMeans(sha, ss[j].issued, r);
    RelabelledSp1Accepted(sha, c, policy, ss[k].jobs, req, r);
  }

  // ---------- Re-running a request ----------

  /** No request carries a secret. */
  ghost predicate NoSecrets(ls: seq<Label>) {
    forall k :: 0 <= k < |ls| && ls[k].Start? ==> ls[k].req.secretInputs == []
  }

  ghost predicate Unlabelled(sha: Digest, r: TeeReceipt) {
    MockProved(sha, r) && r.confidentiality == "" && r.secretDigestHex == ""
  }

  /** Nothing open has a secret, and everything issued was proved in process. */
  ghost predicate Public(sha: Digest, s: State) {
    (forall id :: id in s.open ==> s.open[id].secret == []) && (forall r :: r in s.issued ==> Unlabelled(sha, r))
  }

  lemma PreparedSecret(sha: Digest, c: Control, programs: map<string, bytes>, req: ExecuteRequest)
    requires Prepare(sha, c, programs, req).Ok?
    ensures Prepare(sha, c, programs, req).value.secret == req.secretInputs
  {
    hide Parse, CodeHash, Runtime, ResolveGuest, SecretCheck, AclAllows, ApiKeyOk;
  }

  /** The receipt of a request without a secret, proved in process. */
  function PublicReceipt(sha: Digest, p: Prepared): TeeReceipt {
    Issue(sha, p, Proved(p.inputs, ProveLocal(sha, p), "", ""))
  }

  /** Without a secret the in-process prover always completes, and the worker plays no part. */
  lemma PublicCompletes(sha: Digest, c: Control, p: Prepared, worker: Option<Sealed>)
    requires p.secret == []
    ensures Complete(sha, c, p, InProcess, worker) == Ok(PublicReceipt(sha, p)) && Unlabelled(sha, PublicReceipt(sha, p))
  {
    hide LooksSafe, ProveLocal, Issue, MockProved;
    NoSecretToLeak(PublicReceipt(sha, p), p.secret);
    LocalIsMockProved(sha, c, p, InProcess, worker);
    IssueKeepsLabels(sha, p, Proved(p.inputs, ProveLocal(sha, p), "", ""));
  }

  lemma IssueKeepsLabels(sha: Digest, p: Prepared, d: Proved)
    ensures Issue(sha, p, d).confidentiality == d.confidentiality && Issue(sha, p, d).secretDigestHex == d.digestHex
  {
    hide ResultPreimage, NoncePreimage, SuiteOr;
  }

  lemma NoSecretToLeak(r: TeeReceipt, secret: bytes)
    requires secret == []
    ensures LooksSafe(r.inputs, secret) && LooksSafe(r.outputs, secret)
  {
    hide InputText, Before;
  }

  lemma PublicStep(sha: Digest, c: Control, s: State, l: Label, s': State)
    requires Step(sha, c, s, l, s') && Public(sha, s)
    requires (l.End? ==> l.prover == InProcess) && (l.Start? ==> l.req.secretInputs == [])
    ensures Public(sha, s')
  {
    hide Prepare, Complete, CheckQuota, LoadCheck, JobId, Unlabelled, EndStep;
    match l {
      case Load(_) =>
      case Start(_, req, _) =>
        if Prepare(sha, c, s.programs, req).Ok? {
          PreparedSecret(sha, c, s.programs, req);
        }
      case End(id, _, worker) =>
        PublicEnd(sha, c, s, id, worker);
    }
  }

  lemma PublicEnd(sha: Digest, c: Control, s: State, id: nat, worker: Option<Sealed>)
    requires Public(sha, s) && id in s.open
    ensures
      var r, s' := PublicReceipt(sha, s.open[id]), EndStep(sha, c, s, id, InProcess, worker);
      Public(sha, s') && s'.issued == s.issued + [r] && s'.jobs == s.jobs[JobId(sha, r) := r]
  {
    hide Complete, JobId, Unlabelled, PublicReceipt;
    PublicCompletes(sha, c, s.open[id], worker);
  }

  lemma {:induction false} PublicRun(sha: Digest, c: Control, ss: seq<State>, ls: seq<Label>, k: nat)
    requires Services.IsRun(sha, c, ss, ls) && k < |ss| && LocalRun(ls) && NoSecrets(ls)
    ensures Public(sha, ss[k])
    decreases k
  {
    hide Step, Public;
    if k == 0 {
      assert Public(sha, INITIAL) by { InitiallyPublic(sha); }
    } else {
      PublicRun(sha, c, ss, ls, k - 1);
      PublicStep(sha, c, ss[k - 1], ls[k - 1], ss[k]);
    }
  }

  lemma InitiallyPublic(sha: Digest)
    ensures Public(sha, INITIAL)
  {
  }

  /** Suite, confidentiality and secret digest, which no hash binds, are nevertheless the same for the same claim. */
  ghost predicate LabelsDetermined(issued: seq<TeeReceipt>) {
    forall r, s :: r in issued && s in issued && ClaimOf(r) == ClaimOf(s) ==>
      r.suite == s.suite && r.confidentiality == s.confidentiality && r.secretDigestHex == s.secretDigestHex
  }

  /** Then the store holds every issued receipt itself, so putting one again changes nothing. */
  lemma PutAgain(sha: Digest, issued: seq<TeeReceipt>, r: TeeReceipt)
    requires AllBuilt(sha, issued) && CollisionFree(sha, issued) && AllSmall(issued) && r in issued
    requires ProofsDetermined(issued) && LabelsDetermined(issued)
    ensures JobId(sha, r) in JobsOf(sha, issued) && JobsOf(sha, issued)[JobId(sha, r)] == r
  {
    hide JobsOf, JobId, AllBuilt, CollisionFree, AllSmall, ComputeResultHash;
    JobsHoldIssued(sha, issued);
    var last := JobsOf(sha, issued)[JobId(sha, r)];
    SameIdSameClaim(sha, issued, last, r);
  }

  lemma PublicDetermines(sha: Digest, s: State)
    requires Public(sha, s)
    ensures ProofsDetermined(s.issued) && LabelsDetermined(s.issued)
  {
    hide MockProofOf, ComputeResultHash;
  }

  /** Step `j` ends the request that step `a` began. */
  ghost predicate Served(ss: seq<State>, ls: seq<Label>, a: nat, j: nat, id: nat, req: ExecuteRequest) {
    a < j < |ls| < |ss| && ls[a].Start? && ls[a].id == id && ls[a].req == req && id in ss[a + 1].open &&
    ls[j].End? && ls[j].id == id && forall m :: a < m < j ==> !(ls[m].End? && ls[m].id == id)
  }

  lemma StartOpens(sha: Digest, c: Control, s: State, l: Label, s': State)
    requires Step(sha, c, s, l, s') && l.Start? && l.id in s'.open
    ensures Prepare(sha, c, s.programs, l.req) == Ok(s'.open[l.id])
  {
    hide Prepare, CheckQuota, EndStep, LoadStep;
  }

  lemma StepKeepsOpen(sha: Digest, c: Control, s: State, l: Label, s': State, id: nat)
    requires Step(sha, c, s, l, s') && id in s.open && !(l.End? && l.id == id)
    ensures id in s'.open && s'.open[id] == s.open[id]
  {
    hide Prepare, CheckQuota, Complete, LoadCheck, JobId;
  }

  lemma {:induction false} OpenUntilEnd(
      sha: Digest, c: Control, ss: seq<State>, ls: seq<Label>, a: nat, j: nat, id: nat, req: ExecuteRequest, m: nat)
    requires Services.IsRun(sha, c, ss, ls) && Served(ss, ls, a, j, id, req) && a < m <= j
    ensures id in ss[m].open && Prepare(sha, c, ss[a].programs, req) == Ok(ss[m].open[id])
    decreases m
  {
    hide Step, Prepare;
    if m == a + 1 {
      StartOpens(sha, c, ss[a], ls[a], ss[a + 1]);
    } else {
      OpenUntilEnd(sha, c, ss, ls, a, j, id, req, m - 1);
      StepKeepsOpen(sha, c, ss[m - 1], ls[m - 1], ss[m], id);
    }
  }

  /** The program that a request names is another one only if the two collide. */
  ghost predicate ProgramsCollide(sha: Digest, s: State, t: State, req: ExecuteRequest) {
    req.programId in s.programs && req.programId in t.programs &&
    Collision(sha, s.programs[req.programId], t.programs[req.programId])
  }

  lemma PreparedAlike(sha: Digest, c: Control, s: State, t: State, req: ExecuteRequest)
    requires Inv(sha, c, s) && Inv(sha, c, t)
    requires Prepare(sha, c, s.programs, req).Ok? && Prepare(sha, c, t.programs, req).Ok?
    ensures Prepare(sha, c, s.programs, req) == Prepare(sha, c, t.programs, req) || ProgramsCollide(sha, s, t, req)
  {
    hide Parse, HexEncode, SecretCheck, Resolve, AclAllows, ApiKeyOk, JobsOf, AllBuilt;
    if req.program == [] && req.programId != "" {
      HexInjective(sha(s.programs[req.programId]), sha(t.programs[req.programId]));
    }
  }

  /** What an ending does to the store. */
  lemma EndOutcome(sha: Digest, c: Control, s: State, l: Label, s': State)
    requires Step(sha, c, s, l, s') && l.End? && l.id in s.open
    ensures
      match Complete(sha, c, s.open[l.id], l.prover, l.worker)
      case Err(_) => s'.jobs == s.jobs
      case Ok(r) => s'.issued == s.issued + [r] && s'.jobs == s.jobs[JobId(sha, r) := r]
  {
    hide Complete, JobId;
  }

  /** The worker is asked only about secrets, and the prover only without one. */
  lemma OneIsAsked(
      sha: Digest, c: Control, p: Prepared, prover: Prover, worker: Option<Sealed>, prover': Prover, worker': Option<Sealed>)
    requires if p.secret == [] then prover == prover' else worker == worker'
    ensures Complete(sha, c, p, prover, worker) == Complete(sha, c, p, prover', worker')
  {
    hide LooksSafe, Issue, ProveLocal, WithDigest, HexEncode, MockProofOf;
  }

  lemma SecondServing(
      sha: Digest, c: Control, ss: seq<State>, ls: seq<Label>, j: nat, k: nat, p: Prepared)
    requires Services.IsRun(sha, c, ss, ls) && j < k < |ls| && ls[j].End? && ls[k].End?
    requires ls[j].id in ss[j].open && ss[j].open[ls[j].id] == p
    requires ls[k].id in ss[k].open && ss[k].open[ls[k].id] == p
    requires if p.secret == [] then ls[j].prover == ls[k].prover else ls[j].worker == ls[k].worker
    requires CollisionFree(sha, ss[k].issued) && AllSmall(ss[k].issued)
    requires ProofsDetermined(ss[k].issued) && LabelsDetermined(ss[k].issued)
    ensures ss[k + 1].jobs == ss[k].jobs
  {
    hide Step, Complete, JobId, CollisionFree, AllSmall, ProofsDetermined, LabelsDetermined, JobsOf, AllBuilt, Addressed;
    EndOutcome(sha, c, ss[j], ls[j], ss[j + 1]);
    EndOutcome(sha, c, ss[k], ls[k], ss[k + 1]);
    OneIsAsked(sha, c, p, ls[j].prover, ls[j].worker, ls[k].prover, ls[k].worker);
    var outcome := Complete(sha, c, p, ls[k].prover, ls[k].worker);
    if outcome.Ok? {
      RunGrows(sha, c, ss, ls, j + 1, k);
      RunKeeps(sha, c, ss, ls, k);
      assert outcome.value in ss[j + 1].issued;
      PutAgain(sha, ss[k].issued, outcome.value);
    }
  }

  /** Re-running a request leaves the stored receipts unchanged.  In every run and whatever happens in between, the second
      of two servings of one request, with the same answer of prover or worker, changes nothing in the job store, if proofs
      and labels are determined by what they are about, or two programs or two receipts collide. */
  lemma RerunIsIdempotent(
      sha: Digest, c: Control, ss: seq<State>, ls: seq<Label>, a: nat, j: nat, id: nat, b: nat, k: nat, id': nat,
      req: ExecuteRequest)
    requires Services.IsRun(sha, c, ss, ls)
    requires Served(ss, ls, a, j, id, req) && Served(ss, ls, b, k, id', req) && j < k
    requires if req.secretInputs == [] then ls[j].prover == ls[k].prover else ls[j].worker == ls[k].worker
    requires CollisionFree(sha, ss[k].issued) && AllSmall(ss[k].issued)
    requires ProofsDetermined(ss[k].issued) && LabelsDetermined(ss[k].issued)
    ensures ss[k + 1].jobs == ss[k].jobs || ProgramsCollide(sha, ss[a], ss[b], req)
  {
    hide Services.IsRun, Inv, Prepare, CollisionFree, AllSmall, ProgramsCollide, ProofsDetermined, LabelsDetermined;
    RunKeeps(sha, c, ss, ls, a);
    RunKeeps(sha, c, ss, ls, b);
    OpenUntilEnd(sha, c, ss, ls, a, j, id, req, j);
    OpenUntilEnd(sha, c, ss, ls, b, k, id', req, k);
    PreparedAlike(sha, c, ss[a], ss[b], req);
    PreparedSecret(sha, c, ss[a].programs, req);
    if ss[j].open[id] == ss[k].open[id'] {
      SecondServing(sha, c, ss, ls, j, k, ss[j].open[id]);
    }
  }

  /** A server that proves in process and is sent no secrets meets all of these conditions. */
  lemma RerunInProcess(
      sha: Digest, c: Control, ss: seq<State>, ls: seq<Label>, a: nat, j: nat, id: nat, b: nat, k: nat, id': nat,
      req: ExecuteRequest)
    requires Services.IsRun(sha, c, ss, ls) && LocalRun(ls) && NoSecrets(ls)
    requires Served(ss, ls, a, j, id, req) && Served(ss, ls, b, k, id', req) && j < k
    requires CollisionFree(sha, ss[k].issued) && AllSmall(ss[k].issued)
    ensures ss[k + 1].jobs == ss[k].jobs || ProgramsCollide(sha, ss[a], ss[b], req)
  {
    hide Services.IsRun, CollisionFree, AllSmall, ProgramsCollide, Public, ProofsDetermined, LabelsDetermined;
    PublicRun(sha, c, ss, ls, k);
    PublicDetermines(sha, ss[k]);
    assert req.secretInputs == [] && ls[j].prover == ls[k].prover by {
      assert ls[a].req == req;
    }
    RerunIsIdempotent(sha, c, ss, ls, a, j, id, b, k, id', req);
  }
}
