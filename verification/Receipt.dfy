// Receipt binding: the suites, hash preimages and mock acceptance of host/receipt/src/lib.rs; the Lean host's
// `computeResultHash` and `mockProof` are the SHA-256 members of the same family.

module Receipt {
  import opened Wrappers
  import opened Text
  import opened Framing

  datatype Suite = Sha256Mock | Sha256Sp1 | Blake3Mock

  /** The two hash functions; nothing is assumed of either beyond 32-byte results. */
  datatype Hashes = Hashes(sha: Digest, blake: Digest)

  /** What a receipt is about. */
  datatype Claim = Claim(code: bytes, config: bytes, inputs: bytes, outputs: bytes, nonce: bytes)

  function SuiteId(s: Suite): string {
    match s
    case Sha256Mock => "sha256+mock"
    case Sha256Sp1 => "sha256+sp1"
    case Blake3Mock => "blake3+mock"
  }

  const PROFILE_V1: string := "lean-tee-v1"
  const PROFILE_V2: string := "lean-tee-v2"

  function NormalizeSuite(id: string): string {
    var t := Trim(Rust, id);
    if t == "" || t == PROFILE_V1 then SuiteId(Sha256Mock)
    else if t == PROFILE_V2 then SuiteId(Sha256Sp1)
    else t
  }

  /** `CryptoSuite::parse`. */
  function ParseSuite(id: string): Option<Suite> {
    var n := NormalizeSuite(id);
    if n == SuiteId(Sha256Mock) then Some(Sha256Mock)
    else if n == SuiteId(Sha256Sp1) then Some(Sha256Sp1)
    else if n == SuiteId(Blake3Mock) then Some(Blake3Mock)
    else None
  }

  function HashOf(hs: Hashes, s: Suite): Digest {
    if s == Blake3Mock then hs.blake else hs.sha
  }

  function ResultDomain(s: Suite): bytes {
    if s == Blake3Mock then Encode("lean-tee/blake3/v1") else Encode("lean-tee/v1")
  }

  function MockDomain(s: Suite): Option<bytes> {
    match s
    case Sha256Mock => Some(Encode("lean-tee/mock-proof/v1"))
    case Blake3Mock => Some(Encode("lean-tee/mock-proof-blake3/v1"))
    case Sha256Sp1 => None
  }

  function ResultChunks(s: Suite, c: Claim): seq<bytes> {
    [ResultDomain(s), c.code, c.config, c.inputs, c.outputs, c.nonce]
  }

  function ResultPreimage(s: Suite, c: Claim): bytes {
    Concat(ResultChunks(s, c))
  }

  /** `result_hash_suite`. */
  function ResultHash(hs: Hashes, s: Suite, c: Claim): bytes {
    HashOf(hs, s)(ResultPreimage(s, c))
  }

  function MockChunks(s: Suite, c: Claim): seq<bytes>
    requires MockDomain(s).Some?
  {
    [MockDomain(s).value, c.code, c.config, c.inputs, c.outputs]
  }

  function MockPreimage(s: Suite, c: Claim): bytes
    requires MockDomain(s).Some?
  {
    Concat(MockChunks(s, c))
  }

  /** `mock_proof_suite`: only mock suites have one. */
  function MockProof(hs: Hashes, s: Suite, c: Claim): Option<bytes> {
    if MockDomain(s).Some? then Some(HashOf(hs, s)(MockPreimage(s, c))) else None
  }

  datatype AcceptError = UnknownSuite | NotMock | ResultHashMismatch | MockProofInvalid

  /** `accept_mock_receipt`: `None` is acceptance. */
  function AcceptMock(hs: Hashes, id: string, c: Claim, evidence: bytes, proof: bytes): Option<AcceptError> {
    match ParseSuite(id)
    case None => Some(UnknownSuite)
    case Some(s) =>
      if MockDomain(s) == None then Some(NotMock)
      else if evidence != ResultHash(hs, s, c) then Some(ResultHashMismatch)
      else if Some(proof) != MockProof(hs, s, c) then Some(MockProofInvalid)
      else None
  }

  // ---------- Facts about the constants ----------

  lemma SuiteIdFacts(s: Suite)
    ensures ParseSuite(SuiteId(s)) == Some(s)
  {
    assert Trimmed(Rust, SuiteId(s));
    TrimFixed(Rust, SuiteId(s));
    hide Trim;
    assert SuiteId(s)[0] != PROFILE_V1[0] && SuiteId(s)[0] != PROFILE_V2[0];
    assert SuiteId(Sha256Mock)[7] != SuiteId(Sha256Sp1)[7];
    assert SuiteId(Blake3Mock)[0] != SuiteId(Sha256Mock)[0];
    assert SuiteId(Blake3Mock)[0] != SuiteId(Sha256Sp1)[0];
  }

  lemma EmptyIsSha256Mock()
    ensures ParseSuite("") == Some(Sha256Mock)
  {
    hide Trim;
    TrimFixed(Rust, "");
  }

  lemma DomainsSmall(s: Suite)
    ensures |ResultDomain(s)| < 0x1_0000_0000
    ensures MockDomain(s).Some? ==> |MockDomain(s).value| < 0x1_0000_0000
  {
    hide Encode;
    EncodeBound("lean-tee/blake3/v1");
    EncodeBound("lean-tee/v1");
    EncodeBound("lean-tee/mock-proof/v1");
    EncodeBound("lean-tee/mock-proof-blake3/v1");
  }

  lemma ResultDomainsDiffer()
    ensures ResultDomain(Sha256Mock) != ResultDomain(Blake3Mock)
  {
    hide Encode;
    var x, y := "lean-tee/v1", "lean-tee/blake3/v1";
    assert |x| != |y|;
    if Encode(x) == Encode(y) {
      EncodeInjective(x, y);
    }
  }

  /** Every field fits in a 32-bit length prefix. */
  predicate SmallClaim(c: Claim) {
    && |c.code| < 0x1_0000_0000 && |c.config| < 0x1_0000_0000 && |c.inputs| < 0x1_0000_0000
    && |c.outputs| < 0x1_0000_0000 && |c.nonce| < 0x1_0000_0000
  }

  lemma ChunksSmall(s: Suite, c: Claim)
    requires SmallClaim(c)
    ensures Small(ResultChunks(s, c))
    ensures MockDomain(s).Some? ==> Small(MockChunks(s, c))
  {
    hide ResultDomain, MockDomain;
    DomainsSmall(s);
  }

  // ---------- Main results ----------

  /** Preimages of different kinds never coincide: result hashes, mock proofs, and the untagged two-chunk preimages of
      nonces, job ids and reasons; nor do result preimages of suites with different hashes. */
  lemma PreimagesDisjoint(s: Suite, c: Claim, t: Suite, e: Claim, x: bytes, y: bytes)
    requires SmallClaim(c) && SmallClaim(e) && Small([x, y])
    ensures MockDomain(t).Some? ==> ResultPreimage(s, c) != MockPreimage(t, e)
    ensures ResultPreimage(s, c) != Concat([x, y])
    ensures MockDomain(t).Some? ==> MockPreimage(t, e) != Concat([x, y])
    ensures (s == Blake3Mock) != (t == Blake3Mock) ==> ResultPreimage(s, c) != ResultPreimage(t, e)
  {
    hide Concat, ResultDomain, MockDomain, Small, SmallClaim;
    ChunksSmall(s, c);
    ChunksSmall(t, e);
    assert |ResultChunks(s, c)| == 6 && |[x, y]| == 2;
    if MockDomain(t).Some? && ResultPreimage(s, c) == MockPreimage(t, e) {
      ConcatInjective(ResultChunks(s, c), MockChunks(t, e));
    }
    if ResultPreimage(s, c) == Concat([x, y]) {
      ConcatInjective(ResultChunks(s, c), [x, y]);
    }
    if MockDomain(t).Some? && MockPreimage(t, e) == Concat([x, y]) {
      ConcatInjective(MockChunks(t, e), [x, y]);
    }
    if (s == Blake3Mock) != (t == Blake3Mock) && ResultPreimage(s, c) == ResultPreimage(t, e) {
      DomainsAsTwo(s, t);
      assert ResultChunks(s, c)[0] != ResultChunks(t, e)[0];
      ConcatInjective(ResultChunks(s, c), ResultChunks(t, e));
    }
  }

  /** Nor do the mock-proof preimages of the two mock suites. */
  lemma MockPreimagesDisjoint(c: Claim, e: Claim)
    requires SmallClaim(c) && SmallClaim(e)
    ensures MockPreimage(Sha256Mock, c) != MockPreimage(Blake3Mock, e)
  {
    hide Concat, Small, SmallClaim, Encode;
    ChunksSmall(Sha256Mock, c);
    ChunksSmall(Blake3Mock, e);
    MockDomainsDiffer();
    assert MockChunks(Sha256Mock, c)[0] != MockChunks(Blake3Mock, e)[0];
    if MockPreimage(Sha256Mock, c) == MockPreimage(Blake3Mock, e) {
      ConcatInjective(MockChunks(Sha256Mock, c), MockChunks(Blake3Mock, e));
    }
  }

  lemma MockDomainsDiffer()
    ensures MockDomain(Sha256Mock).value != MockDomain(Blake3Mock).value
  {
    hide Encode;
    var x, y := "lean-tee/mock-proof/v1", "lean-tee/mock-proof-blake3/v1";
    assert |x| != |y|;
    if Encode(x) == Encode(y) {
      EncodeInjective(x, y);
    }
  }

  /** Two-chunk preimages carry no tag: they coincide exactly when their chunks do, whatever the chunks stand for. */
  lemma PairPreimage(a: bytes, b: bytes, x: bytes, y: bytes)
    requires Small([a, b]) && Small([x, y])
    ensures Concat([a, b]) == Concat([x, y]) <==> a == x && b == y
  {
    hide Concat, Small;
    if Concat([a, b]) == Concat([x, y]) {
      ConcatInjective([a, b], [x, y]);
      assert [a, b][0] == [x, y][0] && [a, b][1] == [x, y][1];
    }
  }

  lemma DomainsAsTwo(s: Suite, t: Suite)
    requires (s == Blake3Mock) != (t == Blake3Mock)
    ensures ResultDomain(s) != ResultDomain(t)
  {
    hide Encode;
    ResultDomainsDiffer();
  }

  lemma ResultPreimageInjective(s: Suite, c: Claim, e: Claim)
    requires SmallClaim(c) && SmallClaim(e) && ResultPreimage(s, c) == ResultPreimage(s, e)
    ensures c == e
  {
    hide Concat, ResultDomain, Small, SmallClaim;
    ChunksSmall(s, c);
    ChunksSmall(s, e);
    ConcatInjective(ResultChunks(s, c), ResultChunks(s, e));
    ChunksDetermine(s, c, e);
  }

  lemma ChunksDetermine(s: Suite, c: Claim, e: Claim)
    requires ResultChunks(s, c) == ResultChunks(s, e)
    ensures c == e
  {
    hide ResultDomain;
    var a, b := ResultChunks(s, c), ResultChunks(s, e);
    assert a[1] == b[1] && a[2] == b[2] && a[3] == b[3] && a[4] == b[4] && a[5] == b[5];
  }

  /** A mock proof binds measurement, inputs and outputs: they can be read off its preimage. */
  lemma MockPreimageInjective(s: Suite, c: Claim, e: Claim)
    requires MockDomain(s).Some? && SmallClaim(c) && SmallClaim(e) && MockPreimage(s, c) == MockPreimage(s, e)
    ensures c.code == e.code && c.config == e.config && c.inputs == e.inputs && c.outputs == e.outputs
  {
    hide Concat, MockDomain, Small, SmallClaim;
    ChunksSmall(s, c);
    ChunksSmall(s, e);
    ConcatInjective(MockChunks(s, c), MockChunks(s, e));
    var a, b := MockChunks(s, c), MockChunks(s, e);
    assert a[1] == b[1] && a[2] == b[2] && a[3] == b[3] && a[4] == b[4];
  }

  /** The preimages as a reader of the framing sees them, tag by tag and field by field. */
  lemma PreimagesRead(c: Claim)
    requires SmallClaim(c)
    ensures Decode(ResultPreimage(Sha256Mock, c)) == Decode(ResultPreimage(Sha256Sp1, c)) ==
            Some([Encode("lean-tee/v1"), c.code, c.config, c.inputs, c.outputs, c.nonce])
    ensures Decode(ResultPreimage(Blake3Mock, c)) ==
            Some([Encode("lean-tee/blake3/v1"), c.code, c.config, c.inputs, c.outputs, c.nonce])
    ensures Decode(MockPreimage(Sha256Mock, c)) ==
            Some([Encode("lean-tee/mock-proof/v1"), c.code, c.config, c.inputs, c.outputs])
    ensures Decode(MockPreimage(Blake3Mock, c)) ==
            Some([Encode("lean-tee/mock-proof-blake3/v1"), c.code, c.config, c.inputs, c.outputs])
  {
    hide Concat, Decode, Small, SmallClaim, Encode;
    ChunksSmall(Sha256Mock, c);
    ChunksSmall(Sha256Sp1, c);
    ChunksSmall(Blake3Mock, c);
    DecodeConcat(ResultChunks(Sha256Mock, c));
    DecodeConcat(ResultChunks(Sha256Sp1, c));
    DecodeConcat(ResultChunks(Blake3Mock, c));
    DecodeConcat(MockChunks(Sha256Mock, c));
    DecodeConcat(MockChunks(Blake3Mock, c));
  }

  /** Which hash function and which tag belong to which suite; SP1 has no mock proof. */
  lemma SuiteHashes(hs: Hashes, c: Claim)
    ensures ResultHash(hs, Sha256Mock, c) == ResultHash(hs, Sha256Sp1, c) ==
            hs.sha(Concat([Encode("lean-tee/v1"), c.code, c.config, c.inputs, c.outputs, c.nonce]))
    ensures ResultHash(hs, Blake3Mock, c) ==
            hs.blake(Concat([Encode("lean-tee/blake3/v1"), c.code, c.config, c.inputs, c.outputs, c.nonce]))
    ensures MockProof(hs, Sha256Mock, c) ==
            Some(hs.sha(Concat([Encode("lean-tee/mock-proof/v1"), c.code, c.config, c.inputs, c.outputs])))
    ensures MockProof(hs, Blake3Mock, c) ==
            Some(hs.blake(Concat([Encode("lean-tee/mock-proof-blake3/v1"), c.code, c.config, c.inputs, c.outputs])))
    ensures MockProof(hs, Sha256Sp1, c) == None
  {
    hide Concat, Encode;
  }

  /** The names of the suites: white space around them is ignored, and the two profiles are names too. */
  lemma SuiteNames(id: string)
    ensures
      var t := Trim(Rust, id);
      (ParseSuite(id) == Some(Sha256Mock) <==> t == "" || t == "lean-tee-v1" || t == "sha256+mock") &&
      (ParseSuite(id) == Some(Sha256Sp1) <==> t == "lean-tee-v2" || t == "sha256+sp1") &&
      (ParseSuite(id) == Some(Blake3Mock) <==> t == "blake3+mock")
  {
    hide Trim;
    SuiteTextsDiffer();
  }

  lemma SuiteTextsDiffer()
    ensures "sha256+mock" != "sha256+sp1" && "sha256+mock" != "blake3+mock" && "sha256+sp1" != "blake3+mock"
    ensures "lean-tee-v1" != "lean-tee-v2"
  {
    assert "sha256+mock"[7] != "sha256+sp1"[7] && "lean-tee-v1"[10] != "lean-tee-v2"[10];
    assert "sha256+mock"[0] != "blake3+mock"[0] && "sha256+sp1"[0] != "blake3+mock"[0];
  }

  /** What acceptance means. */
  lemma AcceptMockMeans(hs: Hashes, id: string, c: Claim, evidence: bytes, proof: bytes)
    ensures AcceptMock(hs, id, c, evidence, proof) == None <==>
      ParseSuite(id).Some? && evidence == ResultHash(hs, ParseSuite(id).value, c) &&
      MockProof(hs, ParseSuite(id).value, c) == Some(proof)
  {
    hide ParseSuite, MockDomain, ResultHash, HashOf, MockPreimage;
  }

  /** Every receipt of a mock suite built from the two hash functions is accepted. */
  lemma BuiltIsAccepted(hs: Hashes, s: Suite, c: Claim)
    requires MockProof(hs, s, c).Some?
    ensures AcceptMock(hs, SuiteId(s), c, ResultHash(hs, s, c), MockProof(hs, s, c).value) == None
  {
    hide ParseSuite, SuiteId, MockProof, ResultHash, AcceptMock;
    SuiteIdFacts(s);
    AcceptMockMeans(hs, SuiteId(s), c, ResultHash(hs, s, c), MockProof(hs, s, c).value);
  }

  /** Two accepted receipts of one suite with the same evidence are the same receipt, or the two preimages shown here
      collide. */
  lemma AcceptanceDetermines(
      hs: Hashes, id: string, id': string, c: Claim, c': Claim, evidence: bytes, proof: bytes, proof': bytes)
    requires AcceptMock(hs, id, c, evidence, proof) == None
    requires AcceptMock(hs, id', c', evidence, proof') == None
    requires ParseSuite(id) == ParseSuite(id')
    requires SmallClaim(c) && SmallClaim(c')
    ensures ParseSuite(id).Some?
    ensures
      var s := ParseSuite(id).value;
      (c == c' && proof == proof') || Collision(HashOf(hs, s), ResultPreimage(s, c), ResultPreimage(s, c'))
  {
    hide ParseSuite, ResultPreimage, MockProof, AcceptMock, HashOf, SmallClaim;
    AcceptMockMeans(hs, id, c, evidence, proof);
    AcceptMockMeans(hs, id', c', evidence, proof');
    var s := ParseSuite(id).value;
    if ResultPreimage(s, c) == ResultPreimage(s, c') {
      ResultPreimageInjective(s, c, c');
    }
  }

  /** Two receipts of one suite accepted with the same proof agree on measurement, inputs and outputs, or the two
      preimages shown here collide: forged outputs do not pass with an old proof. */
  lemma ProofDetermines(
      hs: Hashes, id: string, id': string, c: Claim, c': Claim, evidence: bytes, evidence': bytes, proof: bytes)
    requires AcceptMock(hs, id, c, evidence, proof) == None
    requires AcceptMock(hs, id', c', evidence', proof) == None
    requires ParseSuite(id) == ParseSuite(id')
    requires SmallClaim(c) && SmallClaim(c')
    ensures ParseSuite(id).Some? && MockDomain(ParseSuite(id).value).Some?
    ensures
      var s := ParseSuite(id).value;
      (c.code == c'.code && c.config == c'.config && c.inputs == c'.inputs && c.outputs == c'.outputs) ||
      Collision(HashOf(hs, s), MockPreimage(s, c), MockPreimage(s, c'))
  {
    hide ParseSuite, MockPreimage, ResultHash, AcceptMock, HashOf, SmallClaim;
    AcceptMockMeans(hs, id, c, evidence, proof);
    AcceptMockMeans(hs, id', c', evidence', proof);
    var s := ParseSuite(id).value;
    if MockPreimage(s, c) == MockPreimage(s, c') {
      MockPreimageInjective(s, c, c');
    }
  }

  /** `accept_mock_receipt` spelled out: which receipts it accepts, and which complaint every other one meets. */
  lemma AcceptMockOutcome(hs: Hashes, id: string, c: Claim, evidence: bytes, proof: bytes)
    ensures
      var outcome := AcceptMock(hs, id, c, evidence, proof);
      var blake := ParseSuite(id) == Some(Blake3Mock);
      var result := if blake
        then hs.blake(Concat([Encode("lean-tee/blake3/v1"), c.code, c.config, c.inputs, c.outputs, c.nonce]))
        else hs.sha(Concat([Encode("lean-tee/v1"), c.code, c.config, c.inputs, c.outputs, c.nonce]));
      var mock := if blake
        then hs.blake(Concat([Encode("lean-tee/mock-proof-blake3/v1"), c.code, c.config, c.inputs, c.outputs]))
        else hs.sha(Concat([Encode("lean-tee/mock-proof/v1"), c.code, c.config, c.inputs, c.outputs]));
      (outcome == Some(UnknownSuite) <==> ParseSuite(id) == None) &&
      (outcome == Some(NotMock) <==> ParseSuite(id) == Some(Sha256Sp1)) &&
      (ParseSuite(id) == Some(Sha256Mock) || blake ==>
         (outcome == Some(ResultHashMismatch) <==> evidence != result) &&
         (outcome == Some(MockProofInvalid) <==> evidence == result && proof != mock) &&
         (outcome == None <==> evidence == result && proof == mock))
  {
    hide ParseSuite, Concat, Encode;
  }

  lemma TwoEmptyChunks()
    ensures Small([[], []])
  {
  }

  /** Suites do not cross-verify: a receipt accepted under both mock suites would need SHA-256 and BLAKE3 to agree on two
      different preimages. */
  lemma SuitesDoNotCrossVerify(hs: Hashes, c: Claim, c': Claim, evidence: bytes, proof: bytes, proof': bytes)
    requires SmallClaim(c) && SmallClaim(c')
    requires AcceptMock(hs, SuiteId(Sha256Mock), c, evidence, proof) == None
    requires AcceptMock(hs, SuiteId(Blake3Mock), c', evidence, proof') == None
    ensures
      var x, y := ResultPreimage(Sha256Mock, c), ResultPreimage(Blake3Mock, c');
      x != y && hs.sha(x) == hs.blake(y)
  {
    hide ParseSuite, SuiteId, ResultPreimage, MockPreimage, MockProof, AcceptMock, MockDomain, SmallClaim, Small, Concat;
    SuiteIdFacts(Sha256Mock);
    SuiteIdFacts(Blake3Mock);
    AcceptMockMeans(hs, SuiteId(Sha256Mock), c, evidence, proof);
    AcceptMockMeans(hs, SuiteId(Blake3Mock), c', evidence, proof');
    TwoEmptyChunks();
    PreimagesDisjoint(Sha256Mock, c, Blake3Mock, c', [], []);
  }

  /** The SP1 suite is never accepted here, and evidence is never its own proof without a collision. */
  lemma EvidenceIsNotProof(hs: Hashes, id: string, c: Claim, evidence: bytes, proof: bytes)
    requires SmallClaim(c)
    requires AcceptMock(hs, id, c, evidence, proof) == None
    ensures ParseSuite(id).Some? && MockDomain(ParseSuite(id).value).Some? && ParseSuite(id).value != Sha256Sp1
    ensures
      var s := ParseSuite(id).value;
      evidence == proof ==> Collision(HashOf(hs, s), ResultPreimage(s, c), MockPreimage(s, c))
  {
    hide ParseSuite, ResultPreimage, MockPreimage, AcceptMock, HashOf, SmallClaim, Small, Concat, Encode;
    AcceptMockMeans(hs, id, c, evidence, proof);
    var s := ParseSuite(id).value;
    TwoEmptyChunks();
    PreimagesDisjoint(s, c, s, c, [], []);
  }
}
