// The same request computed in three places: by the host in process, by the prove service, and by the measured guest.

module ProveLaws {
  import opened Wrappers
  import opened Text
  import opened Framing
  import opened GuestProg
  import opened GuestRun
  import opened Services

  /** No two built-in guests share a code hash. */
  ghost predicate CodesDistinct(sha: Digest) {
    forall g, h :: g in Builtin() && h in Builtin() ==> !Collision(sha, Encode(g.codeId), Encode(h.codeId))
  }

  lemma CodeIdsDiffer(g: Guest, h: Guest)
    requires g in Builtin() && h in Builtin() && g.codeId == h.codeId
    ensures g == h
  {
    assert "lean-tee/compliance_operator/lean-sp1/v1"[9] == 'c';
    assert "lean-tee/voting_operator/lean-sp1/v1"[9] == 'v';
    assert "lean-tee/onboarding_operator/lean-sp1/v1"[9] == 'o';
    assert "lean-tee/trade_operator/lean-sp1/v1"[9] == 't';
    assert "lean-tee/guest_prog_runtime/lean-sp1/v1"[9] == 'g';
  }

  lemma SameCodeSameGuest(sha: Digest, g: Guest, h: Guest)
    requires CodesDistinct(sha) && g in Builtin() && h in Builtin() && CodeHash(sha, g) == CodeHash(sha, h)
    ensures g == h
  {
    hide Builtin, Encode;
    assert !Collision(sha, Encode(g.codeId), Encode(h.codeId));
    EncodeInjective(g.codeId, h.codeId);
    CodeIdsDiffer(g, h);
  }

  lemma {:induction false} FoundByOwnCode(sha: Digest, gs: seq<Guest>, g: Guest)
    requires CodesDistinct(sha) && g in gs && forall h :: h in gs ==> h in Builtin()
    ensures FindByCode(sha, gs, CodeHash(sha, g)) == Some(g)
  {
    hide CodesDistinct, Builtin, CodeHash;
    if CodeHash(sha, gs[0]) == CodeHash(sha, g) {
      SameCodeSameGuest(sha, gs[0], g);
    } else {
      FoundByOwnCode(sha, gs[1..], g);
    }
  }

  lemma {:induction false} FoundIsListed(gs: seq<Guest>, id: string)
    ensures FindGuest(gs, id).Some? ==> FindGuest(gs, id).value in gs
  {
    if gs != [] {
      FoundIsListed(gs[1..], id);
    }
  }

  lemma EmptyDoesNotParse(d: Dialect, limit: nat)
    ensures Parse(d, [], limit).Err?
  {
    hide Trim, Lines;
    CleanLines(d, "");
    TrimFixed(d, "");
    assert Split("", '\n') == [""];
    assert Clean(d, [""][1..]) == [];
    assert Clean(d, [""]) == [];
  }

  /** A prepared request names a built-in guest by its code hash, and binds its program or its rules by their hash. */
  predicate Anchored(sha: Digest, c: Control, p: Prepared) {
    p.guest in Builtin() && p.measurement.code == CodeHash(sha, p.guest) &&
    if p.program != [] then
      p.guest == Runtime() && p.rules == [] && p.measurement.config == sha(p.program) &&
      Parse(Lean, p.program, c.maxProgramBytes).Ok?
    else
      p.measurement.config == sha(p.rules)
  }

  /** What the checks of Execute establish. */
  lemma PreparedShape(sha: Digest, c: Control, programs: map<string, bytes>, req: ExecuteRequest)
    requires Prepare(sha, c, programs, req).Ok?
    ensures Anchored(sha, c, Prepare(sha, c, programs, req).value)
  {
    hide Parse, CodeHash, Runtime, Trim, InputText, SecretCheck, AclAllows, ApiKeyOk;
    EmptyDoesNotParse(Lean, c.maxProgramBytes);
    RuntimeIsBuiltin();
    hide Builtin;
    var id := Trim(Lean, InputText(req.guestId));
    FoundIsListed(Builtin(), if id == "" || id == "compliance_operator/v1" then "compliance_operator" else id);
  }

  lemma RuntimeIsBuiltin()
    ensures Runtime() in Builtin()
  {
    assert Builtin()[4] == Runtime();
  }

  /** Measure announces the measurement that Execute then puts into the receipt, for a program, and for a registry guest
      exactly when the configuration is not taken from the secret, or the two hash alike. */
  lemma MeasurePredicts(sha: Digest, c: Control, programs: map<string, bytes>, req: ExecuteRequest)
    requires Prepare(sha, c, programs, req).Ok?
    ensures
      var p := Prepare(sha, c, programs, req).value;
      (Measure(sha, req.guestId, req.configHash, p.program, c.maxProgramBytes) == Ok(p.measurement)) <==>
      (p.program != [] || req.secretInputs == [] || req.configHash != [] || sha(req.secretInputs) == sha([]))
  {
    hide Parse, CodeHash, Runtime, ResolveGuest, SecretCheck, AclAllows, ApiKeyOk;
    EmptyDoesNotParse(Lean, c.maxProgramBytes);
  }

  /** Sending the request to a prove service of the same build gives what the host would have computed itself. */
  lemma ServedProveAgrees(sha: Digest, c: Control, programs: map<string, bytes>, req: ExecuteRequest)
    requires CodesDistinct(sha) && Prepare(sha, c, programs, req).Ok?
    ensures
      var p := Prepare(sha, c, programs, req).value;
      ServeProve(sha, p.measurement, p.inputs, p.program, p.rules) == ProveLocal(sha, p)
  {
    hide Prepare, CodesDistinct, Builtin, CodeHash, Runtime, ProveLocal;
    var p := Prepare(sha, c, programs, req).value;
    PreparedShape(sha, c, programs, req);
    FoundByOwnCode(sha, Builtin(), p.guest);
    ProvingIgnoresSecret(sha, p);
  }

  lemma ProvingIgnoresSecret(sha: Digest, p: Prepared)
    ensures ProveLocal(sha, p.(nonce := [], secret := [])) == ProveLocal(sha, p)
  {
    hide RunBytes, RunRegistry, ParseErrorOutput, MockProofOf;
  }

  lemma FixedDenialsDiffer()
    ensures ParseErrorOutput() != GuestErrorOutput()
  {
    hide Encode;
    var s, t := "decision=deny\nreason=parse_error\n", "decision=deny\nreason=guest_error\n";
    assert s[21] == 'p' && t[21] == 'g';
    if Encode(s) == Encode(t) {
      EncodeInjective(s, t);
    }
  }

  /** The requests whose outputs do not depend on where they are computed. */
  predicate Portable(p: Prepared) {
    if p.program != [] then |p.program| <= DEFAULT_MAX_PROGRAM_BYTES else p.guest.guestId != Runtime().guestId
  }

  /** The host's in-process outputs are those of the measured guest on the same prove request, exactly for these
      requests: on a longer program, or the program runtime without a program, the two deny with different reasons. */
  lemma HostMatchesGuest(sha: Digest, c: Control, programs: map<string, bytes>, req: ExecuteRequest)
    requires CodesDistinct(sha) && Prepare(sha, c, programs, req).Ok?
    ensures
      var p := Prepare(sha, c, programs, req).value;
      (LocalOutputs(sha, p) ==
       GuestRunLean(sha, p.measurement.code, p.measurement.config, p.inputs, p.program, p.rules)) <==> Portable(p)
  {
    hide Prepare, CodesDistinct, Builtin, CodeHash, Run, RunRegistry, ParseErrorOutput, GuestErrorOutput, ParseText,
      FromUtf8;
    var p := Prepare(sha, c, programs, req).value;
    PreparedShape(sha, c, programs, req);
    FixedDenialsDiffer();
    if p.program == [] {
      FoundByOwnCode(sha, Builtin(), p.guest);
      EmptyDoesNotParse(Lean, DEFAULT_MAX_PROGRAM_BYTES);
    }
  }

  /** Hence, on what both languages read alike, the host's outputs are also those of the Rust guest. */
  lemma HostMatchesRustGuest(sha: Digest, c: Control, programs: map<string, bytes>, req: ExecuteRequest)
    requires CodesDistinct(sha) && Prepare(sha, c, programs, req).Ok?
    requires
      var p := Prepare(sha, c, programs, req).value;
      Portable(p) && SafeCall(sha, p.measurement.code, p.program, p.rules, p.inputs)
    ensures
      var p := Prepare(sha, c, programs, req).value;
      LocalOutputs(sha, p) ==
        match Measured(Rust, sha, p.measurement.code, p.measurement.config, p.inputs, p.program, p.rules)
        { case Ok(out) => out case Err(_) => GuestErrorOutput() }
  {
    hide Prepare, CodesDistinct, LocalOutputs, GuestRunLean, SafeCall, Portable, Measured;
    var p := Prepare(sha, c, programs, req).value;
    HostMatchesGuest(sha, c, programs, req);
    TwinsAgree(sha, p.measurement.code, p.measurement.config, p.inputs, p.program, p.rules);
  }
}
