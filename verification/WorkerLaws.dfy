// What holds of receipts that the repository's own sealed worker proved.

module WorkerLaws {
  import opened Wrappers
  import opened Text
  import opened Framing
  import opened Hex
  import opened Receipt
  import opened GuestProg
  import opened GuestRun
  import opened Services
  import opened ServicesLaws
  import opened SecretLaws
  import opened RunLaws
  import opened Worker

  // ---------- The worker's outputs never show the secret ----------

  predicate Ascii(b: bytes) {
    forall i :: 0 <= i < |b| ==> b[i] < 0x80
  }

  lemma {:induction false} AsciiIsText(b: bytes)
    requires Ascii(b)
    ensures FromUtf8(b).Some?
  {
    if b != [] {
      AsciiIsText(b[1..]);
      assert b[..1] == [b[0]];
    }
  }

  lemma {:induction false} EncodeAscii(s: string)
    requires forall i :: 0 <= i < |s| ==> s[i] as int < 0x80
    ensures Ascii(Encode(s))
  {
    if s != "" {
      hide EncodeChar;
      EncodeAscii(s[1..]);
      AsciiChar(s[0]);
    }
  }

  lemma AsciiChar(c: char)
    requires c as int < 0x80
    ensures EncodeChar(c) == [c as int]
  {
  }

  lemma ReportIsAscii(sha: Digest, allowed: bool, config: bytes, inputs: bytes)
    ensures Ascii(Report(sha, allowed, config, inputs))
  {
    hide Encode, HexEncode, Concat, HexVal;
    var h := HexEncode(sha(Concat([config, inputs])));
    var x := if allowed then "decision=allow" else "decision=deny";
    forall i | 0 <= i < |h|
      ensures h[i] as int < 0x80
    {
      HexChars(sha(Concat([config, inputs])), i);
      HexDigitIsPlain(h[i]);
    }
    EncodeAscii(x + "\nreason=" + h + "\n");
  }

  /** Bytes that are not text cannot be found in ASCII text. */
  lemma NotInAscii(b: bytes, key: bytes)
    requires Ascii(b) && FromUtf8(key).None?
    ensures !Occurs(b, key)
  {
    hide FromUtf8;
    if Occurs(b, key) {
      var i: nat :| At(b, i, key);
      forall k | 0 <= k < |key|
        ensures key[k] < 0x80
      {
        AtElement(b, i, key, k);
      }
      AsciiIsText(key);
    }
  }

  /** The worker's answer to a request with a secret. */
  lemma SealedReport(sha: Digest, p: Prepared) returns (allowed: bool, config: bytes)
    requires Results32(sha) && SmallRequest(p) && RunSealed(sha, p).Some?
    ensures |config| == 32
    ensures RunSealed(sha, p).value == Sealed(Report(sha, allowed, config, p.inputs), sha(p.secret))
  {
    hide Dispatch, RunSealed, Report, Results32;
    WorkerAnswers(sha, p);
    allowed, config := DispatchReports(sha, p.guest.guestId, p.inputs, p.secret, Extra(p));
  }

  /** With the repository's worker: the secret's bytes are never in the outputs of an issued receipt, text or not; and
      they are in its inputs exactly when the secret is not text and the public inputs, with the digest line, contain them
      already. */
  lemma OwnWorkerKeepsSecret(sha: Digest, c: Control, p: Prepared, prover: Prover)
    requires Results32(sha) && SmallRequest(p) && p.secret != []
    requires Complete(sha, c, p, prover, RunSealed(sha, p)).Ok?
    ensures
      var r := Complete(sha, c, p, prover, RunSealed(sha, p)).value;
      !Occurs(r.outputs, p.secret) &&
      (Occurs(r.inputs, p.secret) <==>
         FromUtf8(p.secret).None? && Occurs(WithDigest(p.inputs, HexEncode(sha(p.secret))), p.secret))
  {
    hide Complete, WithDigest, HexEncode, FromUtf8, Occurs, RunSealed, Report, Results32, Ascii, SmallRequest;
    SealedIssued(sha, c, p, prover, RunSealed(sha, p));
    SecretStaysOut(sha, c, p, prover, RunSealed(sha, p));
    var allowed, config := SealedReport(sha, p);
    ReportIsAscii(sha, allowed, config, p.inputs);
    AsciiIsText(Report(sha, allowed, config, p.inputs));
    if FromUtf8(p.secret).None? {
      NotInAscii(Report(sha, allowed, config, p.inputs), p.secret);
    }
  }

  // ---------- A sealed receipt keeps its place ----------

  /** The digest line changes the inputs. */
  lemma DigestChangesInputs(inputs: bytes, digestHex: string)
    ensures WithDigest(inputs, digestHex) != inputs
  {
    hide Encode, FromUtf8;
    var base := InputText(inputs);
    var ended := if base == "" || base[|base| - 1] == '\n' then base else base + "\n";
    var text := ended + "secret_digest=" + digestHex + "\n";
    FromUtf8OfEncode(text);
    assert |text| > |base|;
  }

  /** What the host computes itself is a report on the request's inputs, or the fixed denial. */
  lemma LocalReports(sha: Digest, q: Prepared) returns (allowed: bool, config: bytes)
    requires Results32(sha)
    ensures |config| == 32 || config == q.measurement.config
    ensures LocalOutputs(sha, q) == ParseErrorOutput() || LocalOutputs(sha, q) == Report(sha, allowed, config, q.inputs)
  {
    hide Parse, Report, Allowed, Serialize, Encode, EffectivePrefixes, StartsWithAny, Runtime, ParseErrorOutput;
    if q.guest.guestId == Runtime().guestId {
      var parsed := Parse(Lean, q.program, DEFAULT_MAX_PROGRAM_BYTES);
      if parsed.Ok? {
        allowed, config := Allowed(Lean, parsed.value, q.inputs), sha(Encode(Serialize(parsed.value)));
      } else {
        allowed, config := false, q.measurement.config;
      }
    } else {
      allowed, config := StartsWithAny(EffectivePrefixes(Lean, q.guest, q.rules), InputText(q.inputs)), q.measurement.config;
    }
  }

  /** No request without a secret yields the claim of a receipt that the repository's worker sealed, in process, unless
      the two reason preimages shown here collide: the worker's reason binds the inputs before the digest line, the
      host's those of the receipt. */
  lemma SealedClaimIsOwn(sha: Digest, c: Control, p: Prepared, prover: Prover, r: TeeReceipt, q: Prepared)
    returns (x: bytes, y: bytes)
    requires Results32(sha) && SmallRequest(p) && p.secret != []
    requires Complete(sha, c, p, prover, RunSealed(sha, p)) == Ok(r) && SmallClaim(ClaimOf(r))
    requires ClaimOf(PublicReceipt(sha, q)) == ClaimOf(r)
    ensures Collision(sha, Concat([x, p.inputs]), Concat([y, r.inputs]))
  {
    hide Complete, LocalOutputs, RunSealed, Report, Concat, WithDigest, HexEncode, Results32, ParseErrorOutput, Detects;
    SealedIssued(sha, c, p, prover, RunSealed(sha, p));
    DigestChangesInputs(p.inputs, HexEncode(RunSealed(sha, p).value.secretDigest));
    PublicClaim(sha, q);
    var a;
    a, x := SealedReport(sha, p);
    var b;
    b, y := LocalReports(sha, q);
    ReportIsNotParseError(sha, a, x, p.inputs);
    ReportShowsReason(sha, a, x, p.inputs, b, y, q.inputs);
    SmallReasons(x, p.inputs, y, r.inputs);
    PairPreimage(x, p.inputs, y, r.inputs);
  }

  lemma PublicClaim(sha: Digest, q: Prepared)
    ensures
      var s := PublicReceipt(sha, q);
      s.measurement == q.measurement && s.inputs == q.inputs && s.outputs == LocalOutputs(sha, q)
  {
    hide LocalOutputs, MockPreimage, ResultPreimage, NoncePreimage, SuiteOr, SuiteId;
  }

  lemma SmallReasons(x: bytes, a: bytes, y: bytes, b: bytes)
    requires |x| < 0x1_0000_0000 && |a| < 0x1_0000_0000 && |y| < 0x1_0000_0000 && |b| < 0x1_0000_0000
    ensures Small([x, a]) && Small([y, b])
  {
  }

  /** Hence no such request replaces the sealed receipt in the store, or two job, two result or two reason preimages
      collide. */
  lemma SealedIsNotReplaced(sha: Digest, c: Control, p: Prepared, prover: Prover, r: TeeReceipt, q: Prepared)
    returns (x: bytes, y: bytes)
    requires Results32(sha) && SmallRequest(p) && p.secret != []
    requires Complete(sha, c, p, prover, RunSealed(sha, p)) == Ok(r)
    requires SmallReceipt(r) && SmallReceipt(PublicReceipt(sha, q))
    requires JobId(sha, PublicReceipt(sha, q)) == JobId(sha, r)
    ensures
      var s := PublicReceipt(sha, q);
      Collision(sha, JobPreimage(s), JobPreimage(r)) ||
      Collision(sha, ResultPreimage(Sha256Mock, ClaimOf(s)), ResultPreimage(Sha256Mock, ClaimOf(r))) ||
      Collision(sha, Concat([x, p.inputs]), Concat([y, r.inputs]))
  {
    hide Complete, PublicReceipt, RunSealed, HexEncode, Concat, ResultPreimage, Results32, SmallClaim, SmallRequest;
    var s := PublicReceipt(sha, q);
    x, y := [], [];
    BuiltPair(sha, c, p, prover, RunSealed(sha, p), q);
    SameJobSameClaim(sha, s, r);
    if ClaimOf(s) == ClaimOf(r) {
      x, y := SealedClaimIsOwn(sha, c, p, prover, r, q);
    }
  }

  lemma BuiltPair(sha: Digest, c: Control, p: Prepared, prover: Prover, worker: Option<Sealed>, q: Prepared)
    requires Complete(sha, c, p, prover, worker).Ok?
    ensures
      var r, s := Complete(sha, c, p, prover, worker).value, PublicReceipt(sha, q);
      r.resultHash == ComputeResultHash(sha, r) && s.resultHash == ComputeResultHash(sha, s)
  {
    hide Complete, ResultPreimage, NoncePreimage, SuiteOr, ProveLocal;
    CompletedIsBuilt(sha, c, p, prover, worker);
  }

  /** Two receipts under one job id are about one claim, or collide. */
  lemma SameJobSameClaim(sha: Digest, s: TeeReceipt, r: TeeReceipt)
    requires SmallReceipt(s) && SmallReceipt(r) && JobId(sha, s) == JobId(sha, r)
    requires s.resultHash == ComputeResultHash(sha, s) && r.resultHash == ComputeResultHash(sha, r)
    ensures
      ClaimOf(s) == ClaimOf(r) || Collision(sha, JobPreimage(s), JobPreimage(r)) ||
      Collision(sha, ResultPreimage(Sha256Mock, ClaimOf(s)), ResultPreimage(Sha256Mock, ClaimOf(r)))
  {
    hide HexEncode, Concat, ResultPreimage, SmallClaim;
    HexInjective(sha(JobPreimage(s)), sha(JobPreimage(r)));
    if JobPreimage(s) == JobPreimage(r) {
      SmallPair(s);
      SmallPair(r);
      PairPreimage(s.nonce, s.resultHash, r.nonce, r.resultHash);
      if ResultPreimage(Sha256Mock, ClaimOf(s)) == ResultPreimage(Sha256Mock, ClaimOf(r)) {
        ResultPreimageInjective(Sha256Mock, ClaimOf(s), ClaimOf(r));
      }
    }
  }

  /** Two sealed receipts with the same claim carry the same labels: the digest can be read off the inputs. */
  lemma SealedLabelsFollowClaim(
      sha: Digest, c: Control, p: Prepared, prover: Prover, d: Sealed, r: TeeReceipt, p': Prepared, prover': Prover,
      d': Sealed, r': TeeReceipt)
    requires p.secret != [] && p'.secret != [] && |d.secretDigest| == |d'.secretDigest|
    requires Complete(sha, c, p, prover, Some(d)) == Ok(r) && Complete(sha, c, p', prover', Some(d')) == Ok(r')
    requires r.inputs == r'.inputs
    ensures r.suite == r'.suite && r.confidentiality == r'.confidentiality && r.secretDigestHex == r'.secretDigestHex
  {
    hide Complete, WithDigest, HexEncode, SuiteId, SuiteOr;
    SealedLabels(sha, c, p, prover, d);
    SealedLabels(sha, c, p', prover', d');
    DigestOfInputs(p.inputs, HexEncode(d.secretDigest), p'.inputs, HexEncode(d'.secretDigest));
  }

  lemma SealedLabels(sha: Digest, c: Control, p: Prepared, prover: Prover, d: Sealed)
    requires p.secret != [] && Complete(sha, c, p, prover, Some(d)).Ok?
    ensures
      var r := Complete(sha, c, p, prover, Some(d)).value;
      r.suite == SuiteOr(SuiteId(Sha256Mock)) && r.confidentiality == "local" &&
      r.secretDigestHex == HexEncode(d.secretDigest) && r.inputs == WithDigest(p.inputs, HexEncode(d.secretDigest))
  {
    hide LooksSafe, WithDigest, HexEncode, MockProofOf, SuiteOr, SuiteId, NoncePreimage, ResultPreimage;
  }

  lemma DigestOfInputs(a: bytes, h: string, b: bytes, k: string)
    requires WithDigest(a, h) == WithDigest(b, k) && |h| == |k|
    ensures h == k
  {
    hide Encode, InputText;
    var x, y := InputText(a), InputText(b);
    var ended := if x == "" || x[|x| - 1] == '\n' then x else x + "\n";
    var ended' := if y == "" || y[|y| - 1] == '\n' then y else y + "\n";
    var s, t := ended + "secret_digest=" + h + "\n", ended' + "secret_digest=" + k + "\n";
    EncodeInjective(s, t);
    assert s[|s| - 1 - |h|..|s| - 1] == h && t[|t| - 1 - |k|..|t| - 1] == k;
  }
}
