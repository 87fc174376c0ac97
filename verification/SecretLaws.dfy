// What the leak check of LeanTee/Confidential.lean keeps out of a receipt, in terms of bytes.

module SecretLaws {
  import opened Wrappers
  import opened Text
  import opened Framing
  import opened Hex
  import opened Receipt
  import opened GuestRun
  import opened Services

  /** The leaks that the check can see: both sides are text, and the secret's bytes are among the public ones. */
  ghost predicate Detects(public: bytes, secret: bytes) {
    secret != [] && FromUtf8(secret).Some? && FromUtf8(public).Some? && Occurs(public, secret)
  }

  /** The check on decoded text is exactly a check for the secret's bytes, where both sides are text. */
  lemma GuardMeans(public: bytes, secret: bytes)
    ensures LooksSafe(public, secret) <==> !Detects(public, secret)
  {
    hide FromUtf8, Encode, Before, Occurs, NoOccurrence;
    if FromUtf8(secret).Some? {
      var s := FromUtf8(secret).value;
      FromUtf8Text(secret);
      EmptyText(s);
      if s != "" {
        BeforeAll(InputText(public), s);
        if FromUtf8(public).Some? {
          FromUtf8Text(public);
          OccursAsText(InputText(public), s);
        } else {
          NoOccurrenceInEmpty(s);
        }
      }
    }
  }

  lemma EmptyText(s: string)
    ensures Encode(s) == [] <==> s == ""
  {
    hide EncodeChar;
  }

  /** When a receipt with a secret is issued at all, and with which public bytes. */
  lemma SealedIssued(sha: Digest, c: Control, p: Prepared, prover: Prover, worker: Option<Sealed>)
    requires p.secret != []
    ensures Complete(sha, c, p, prover, worker).Ok? <==>
            c.hasWorker && worker.Some? && !Detects(worker.value.outputs, p.secret) &&
            !Detects(WithDigest(p.inputs, HexEncode(worker.value.secretDigest)), p.secret)
    ensures Complete(sha, c, p, prover, worker).Ok? ==>
              var r := Complete(sha, c, p, prover, worker).value;
              r.outputs == worker.value.outputs && r.confidentiality == "local" &&
              r.inputs == WithDigest(p.inputs, HexEncode(worker.value.secretDigest))
  {
    hide LooksSafe, Detects, WithDigest, HexEncode, MockProofOf, SuiteOr, SuiteId, NoncePreimage, ResultPreimage;
    if worker.Some? {
      GuardMeans(worker.value.outputs, p.secret);
      GuardMeans(WithDigest(p.inputs, HexEncode(worker.value.secretDigest)), p.secret);
    }
  }

  lemma DigestInputsAreText(inputs: bytes, digestHex: string)
    ensures FromUtf8(WithDigest(inputs, digestHex)).Some?
  {
    hide Encode, FromUtf8, InputText;
    var base := InputText(inputs);
    var ended := if base == "" || base[|base| - 1] == '\n' then base else base + "\n";
    FromUtf8OfEncode(ended + "secret_digest=" + digestHex + "\n");
  }

  /** The bytes of the secret get into the public inputs of a receipt only if the secret is not text, and into its outputs
      only if the secret or the outputs are not text. */
  lemma SecretStaysOut(sha: Digest, c: Control, p: Prepared, prover: Prover, worker: Option<Sealed>)
    requires p.secret != [] && Complete(sha, c, p, prover, worker).Ok?
    ensures
      var r := Complete(sha, c, p, prover, worker).value;
      (Occurs(r.inputs, p.secret) ==> FromUtf8(p.secret).None?) &&
      (Occurs(r.outputs, p.secret) ==> FromUtf8(p.secret).None? || FromUtf8(r.outputs).None?)
  {
    hide Complete, WithDigest, HexEncode, FromUtf8, Occurs;
    SealedIssued(sha, c, p, prover, worker);
    DigestInputsAreText(p.inputs, HexEncode(worker.value.secretDigest));
  }

  /** Both exceptions arise for some worker, though not for the repository's own.  Outputs that are not text carry any
      secret text out. */
  lemma UndecodableOutputsPass(sha: Digest, c: Control, p: Prepared, prover: Prover, s: string, d: bytes)
    requires s != "" && p.secret == Encode(s) && c.hasWorker
    requires !Occurs(WithDigest(p.inputs, HexEncode(d)), p.secret)
    ensures
      var r := Complete(sha, c, p, prover, Some(Sealed(p.secret + [0xFF], d)));
      r.Ok? && r.value.outputs == p.secret + [0xFF] && Occurs(r.value.outputs, p.secret)
  {
    hide Complete, WithDigest, HexEncode, FromUtf8, Encode, Occurs;
    EmptyText(s);
    NotUtf8(s);
    SealedIssued(sha, c, p, prover, Some(Sealed(p.secret + [0xFF], d)));
    OccursInFront(p.secret, [0xFF]);
  }

  /** A secret that is not text is never looked for, so a worker may even answer with it. */
  lemma UndecodableSecretPasses(sha: Digest, c: Control, p: Prepared, prover: Prover, d: bytes)
    requires FromUtf8(p.secret).None? && c.hasWorker
    ensures
      var r := Complete(sha, c, p, prover, Some(Sealed(p.secret, d)));
      r.Ok? && r.value.outputs == p.secret
  {
    hide Complete, WithDigest, HexEncode, Occurs;
    SealedIssued(sha, c, p, prover, Some(Sealed(p.secret, d)));
  }

  lemma OccursInFront(a: bytes, b: bytes)
    ensures Occurs(a + b, a)
  {
    PrefixAt(a + b, a);
  }
}
