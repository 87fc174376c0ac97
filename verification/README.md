# lean-tee, modelled and proved in Dafny

lean-tee runs a measured guest on public inputs and binds code, configuration, inputs, outputs and nonce into a hashed
receipt, which a server stores and later accepts or rejects. This project models the six parts of it that carry the hard
properties and proves those properties for every input, every run and every reachable state.

| file | what it models |
|---|---|
| `Sha256Spec.dfy`, `Sha256.dfy` | FIPS 180-4 sections 4.1.2, 4.2.2, 5.1.1, 5.2.1, 5.3.3 and 6.2.2 as functions on bytes, with every constant checked to be the root it should be; the streaming C context as a class that refines them |
| `Sha256Laws.dfy`, `Sha256Example.dfy` | byte order, choose and majority; the digest of "abc" derived step by step |
| `GuestProg.dfy`, `GuestProgLaws.dfy` | the guest policy language: printer, line parser and canonical form, in Lean and in Rust at once (the `Dialect` parameter chooses the string primitives) |
| `ParserLaws.dfy` | what the parser reads: each line, all lines, each outcome, and the wire format |
| `GuestRun.dfy` | running a policy, the registry guests, the measured entry point; agreement of the Lean and Rust guests |
| `Decisions.dfy` | which decision an output announces, when a policy allows its inputs, and what a measured guest refuses |
| `Framing.dfy`, `Receipt.dfy`, `Pipe.dfy`, `Hex.dfy`, `Decimal.dfy` | length-prefixed framing, receipt preimages and mock acceptance, the blob pipe, numerals |
| `Heap.dfy` | the C heap with a size header over a backing allocator, on a byte array |
| `Mix32.dfy` | the 32-bit mixing guest |
| `Quota.dfy`, `Services.dfy`, `Server.dfy` | the quota, the handlers as functions and steps of a state machine, and the stores and handlers as classes refining them |
| `Worker.dfy`, `WorkerLaws.dfy` | the sealed worker's program, the pipes to and from it, and what holds of the receipts it proves |
| `ServicesLaws.dfy`, `RunLaws.dfy`, `ProveLaws.dfy`, `SecretLaws.dfy` | what the server keeps over whole runs, where host, prove service and guest compute the same, and what the leak check keeps out |
| `AccessLaws.dfy` | keys, tenant lists and the outcome of every call, and what they keep out over whole runs |
| `EndToEnd.dfy` | from an issued receipt back to the policy that decided it |
| `Witnesses.dfy` | requests that reach the exceptional side of those theorems |
| `Bytes.dfy`, `Text.dfy`, `Wrappers.dfy` | bytes, UTF-8 text and string operations, `Option` and `Result` |

The digest outside the SHA-256 files is a parameter of which nothing is assumed but 32-byte results, and that only
where it is required. No injectivity is assumed: a theorem that needs it either shows the colliding pair (`Collision`) or
takes "no two preimages of this run collide" as a hypothesis (`CollisionFree`, `CodesDistinct`). Theorems about
preimages ask for fields shorter than 2^32 bytes, the most that the framing can carry. The clock, the remote
prover and the caller's own proof verdict are parameters; so is the sealed worker's answer, except in `Worker.dfy` and
`WorkerLaws.dfy`, where it is what the repository's worker computes.

## What the proofs found

- **Rate limit.** `docs/ENTERPRISE.md:57` promises approximately max_rps Executes per rolling second. The fixed window
  admits up to 2·L in a second when the clock starts below 1000 ms and up to 2·L − 1 otherwise; both bounds hold for
  every run and both are reached (`RateBound`, `RateBoundReached`, `LateRateBoundReached`). With up to w handlers between
  check and begin the bound is 2·(L + w − 1), and it is reached (`WideRateBound`, `WideRateBoundReached`).
- **In-flight limit.** It holds when the check and the begin are one step. With up to w handlers between the two, the
  limit can be passed by w − 1 and by no more, for every limit and every w (`InflightBounded`, `InflightBoundReached`).
- **Raised program limit.** LoadProgram and Execute accept programs up to the configured limit, but `proveLocal` parses
  again with the default of 65536 bytes, so exactly the longer ones run as a parse error
  (`LongProgramsRunAsParseError`), and exactly there, and for the program runtime without a program, the host and the
  measured guest disagree (`HostMatchesGuest`). Such requests exist (`LongProgramExample`, `RuntimeWithoutProgram`).
- **Repeated keys.** Lean's parser cuts a value at a second occurrence of its key and may keep a blank before it, so a
  program read from such a text need not survive printing and parsing. `RoundTrip` gives the exact condition for each
  language, `ParsersAgreeOnPrint` the exact condition for agreement, `RepeatedKeyExample` a program read
  differently, and `RepeatedKeyNotStable` one that Lean accepts and cannot read back.
- **White space.** The two notions differ, and Lean's interaction gate is the stricter one. The interpreters differ on
  exactly the inputs of `GateSplits`, of which `RunnersDifferExample` is one: a no-break space before `interaction=`.
  Inputs built by `bind_interaction` are never among them (`BoundRunsAgree`).
- **Several allow lines.** Rust passes over an `allow=` line without entries, Lean stops at it. The registry guests
  disagree on exactly the inputs that start with a prefix that a later line makes Rust drop (`RegistryAgrees`,
  `RulesAgree`), of which `RegistryDiffersExample` is one.
- **Untagged preimages.** Result hashes and mock proofs carry a domain tag, but the preimages of nonces, job ids and
  guest reasons are all two bare chunks. They coincide exactly when the chunks do (`TwoChunkPreimages`), and an ordinary
  request can be given the nonce that is another receipt's job id (`NonceCanBeJobId`).
- **Labels are not bound.** Suite, confidentiality and secret digest are in no hash, in no job id and in no comparison of
  the store. A stored mock receipt relabelled as SP1 is accepted (`RelabelledSp1Accepted`, `LocalReceiptsPassAsSp1`), and
  any mock receipt passes a requirement of local confidentiality once a digest text is written into it
  (`RelabelledLocalAccepted`). A receipt of the same claim takes the place of a stored one, labels and all
  (`SameClaimReplaces`). That does not happen to what the repository's worker sealed: no request proved in process has
  the claim of such a receipt without a collision (`SealedClaimIsOwn`, `SealedIsNotReplaced`), because the worker's reason
  binds the inputs before the digest line. It takes a worker that answers differently (`SealedLabelReplaced`).
- **Secrets.** `docs/API.md:60` and `docs/CONFIDENTIALITY.md:3` promise that secret bytes never get into the public
  inputs and outputs. With the repository's worker they never get into the outputs, and they are in the inputs exactly
  when the secret is not UTF-8 and its bytes were in the public inputs already (`OwnWorkerKeepsSecret`,
  `SecretAlreadyPublic`). The check by itself sees a leak exactly when secret and public bytes are both UTF-8
  (`GuardMeans`), so a different worker could pass more (`UndecodableOutputsPass`, `UndecodableSecretPasses`).
- **Sealed rules.** A request may name rules and send a secret besides. The receipt is then measured by the hash of the
  rules (`docs/API.md:55`), but the worker decides by the secret and binds its hash in the reason. Measured and deciding
  rules are one exactly when the request leaves its configuration to the secret, or both hash alike
  (`SealedRulesMeasured`); otherwise a receipt can announce an action as allowed that its measured rules deny
  (`SecretOverridesRules`). What is announced is always what the deciding policy says (`ReceiptsAreEarned`).
- **Proof references.** A second Execute of the same request whose prover returns another proof reference makes the first
  SP1 receipt unknown to the server (`NewProofEvicts`, `SecondProofExample`); `FoundIffLastProof` says exactly when it is
  still found.
- **Measure.** It announces the measurement that Execute will use, except when a registry guest takes its configuration
  from the secret (`MeasurePredicts`, `SecretConfiguration`).
- **Framing.** Lengths are cut to 32 bits, so a chunk of 2^32 bytes is ambiguous (`LongChunkIsAmbiguous`); below that
  the framing is uniquely decodable (`FramingRoundTrip`).

## Model

| member | source | states |
|---|---|---|
| Sha256.CodeBigSigma0Bits | native/sha256_portable.c:55 | the shift-and-or expression is the standard's Σ0, a rotation |
| Sha256.CodeBigSigma1Bits | native/sha256_portable.c:52 | likewise for Σ1 |
| Sha256.CodeSmallSigma0Bits | native/sha256_portable.c:39 | likewise for σ0 |
| Sha256.CodeSmallSigma1Bits | native/sha256_portable.c:40 | likewise for σ1 |
| Sha256.CodeWord | native/sha256_portable.c:36-37 | shifting and or-ing four bytes reads them as a big-endian word |
| Sha256.ScheduleSum | native/sha256_portable.c:41 | the code's order of the four schedule terms gives the standard's sum modulo 2^32 |
| Sha256Laws.ChMeans | native/sha256_portable.c:53 | choose takes the bits of y where x has ones and those of z elsewhere |
| Sha256Laws.MajMeans | native/sha256_portable.c:56 | majority has a one exactly where two of the three words have |
| Sha256.InitialWords | native/sha256_portable.c:80-87 | the eight start words are the fractional parts of the square roots of the first eight primes |
| Sha256.TableIsK | native/sha256_portable.c:23-33 | the 64 table entries are the fractional parts of the cube roots of the first 64 primes |
| Sha256.Context.constructor | native/sha256_portable.c:77-88 | a fresh context satisfies the buffering invariant for the empty message |
| Sha256.Context.Schedule | native/sha256_portable.c:34-42 | the two loops fill the 64-word schedule of section 6.2.2 |
| Sha256.Context.Transform | native/sha256_portable.c:22-75 | the 64 rounds in place are one compression of the standard |
| Sha256.Context.Accumulate | native/sha256_portable.c:67-74 | the eight additions are step 4 of section 6.2.2 |
| Sha256.Context.UpdateByte | native/sha256_portable.c:91-98 | one byte keeps the invariant: buffer, wrapped bit counter and state follow the absorbed bytes |
| Sha256.Context.Update | native/sha256_portable.c:90-99 | any call appends its bytes; after n bytes datalen is n mod 64 and n div 64 blocks have been compressed |
| Sha256.Context.FillOneBlock | native/sha256_portable.c:102-106 | the first branch lays out the last padded block |
| Sha256.Context.FillTwoBlocks | native/sha256_portable.c:107-113 | the second branch compresses one padded block and lays out the last |
| Sha256.Context.AppendLength | native/sha256_portable.c:114-122 | the eight stores write the bit length of all bytes absorbed, cut to 64 bits |
| Sha256.Context.Serialize | native/sha256_portable.c:124-133 | the interleaved stores give the big-endian digest |
| Sha256Laws.WordBytesValue | native/sha256_portable.c:124-133 | the four bytes of a digest word are its value in base 256, most significant first |
| Sha256Laws.WordRoundTrip | native/sha256_portable.c:124-133 | a word is read back from its bytes |
| Sha256Laws.ByteRoundTrip | native/sha256_portable.c:36-37 | four bytes are the bytes of the word read from them |
| Sha256Laws.ScheduleValue | native/sha256_portable.c:36-37 | the first 16 schedule words denote what their bytes of the block denote |
| Sha256.Context.Final | native/sha256_portable.c:101-134 | the result is the SHA-256 of everything absorbed, after (n + 8) div 64 + 1 compressions in total |
| Sha256.LeanTeeSha256 | native/sha256_portable.c:143-152 | the exported function is SHA-256 |
| Sha256.HashInPieces | native/sha256_portable.c:77-134 | init, any sequence of updates and final give the SHA-256 of the concatenation, for every split |
| Sha256Example.AbcDigest | native/sha256_portable.c:143-152 | the digest of "abc" is ba7816bf...f20015ad, derived round by round |
| Sha256Spec.ZeroCountIsLeast | native/sha256_portable.c:101-113 | the number of zero bytes is the least solution of section 5.1.1 |
| Sha256Spec.LengthFieldExact | native/sha256_portable.c:114-122 | the length field is the bit length if and only if the message is shorter than 2^61 bytes |
| Sha256Spec.PadInjective | native/sha256_portable.c:101-122 | on those messages padding is injective |
| Text.FromUtf8OfEncode | host/compliance_lib/src/guest_prog.rs:97 | every text is read back from its UTF-8 bytes |
| Text.FromUtf8Text | host/compliance_lib/src/guest_prog.rs:97 | what is accepted as UTF-8 is the encoding of the text read |
| Text.Utf8Example | LeanTee/GuestProg.lean:91-105 | a character of each length, byte by byte |
| Text.NotUtf8Example | host/compliance_lib/src/guest_prog.rs:97 | lone continuation bytes, overlong forms, surrogates and cut sequences are refused |
| Text.Spaces | host/compliance_lib/src/guest_prog.rs:100 | the blanks of the two languages, character by character |
| Text.LinesExample | host/compliance_lib/src/guest_prog.rs:98-99 | how the two languages split into lines, return by return |
| Decimal.DecRoundTrip | LeanTee/GuestProg.lean:66-88 | reading a printed number gives it back, for every number |
| Decimal.PrintedIsShortest | LeanTee/GuestProg.lean:80-88 | no numeral of the same value is shorter than the printed one |
| Decimal.DecExample | LeanTee/GuestProg.lean:66-88 | numerals with the most significant digit first |
| Decimal.SignExample | host/compliance_lib/src/guest_prog.rs:133-135 | Rust takes one plus sign, nobody a minus sign |
| Decimal.DigitText | LeanTee/GuestProg.lean:80-88 | the ten digits in their order |
| Decimal.UsizeRoundTrip | host/compliance_lib/src/guest_prog.rs:131-136 | Rust reads back what it prints exactly when the number is a usize |
| Decimal.ReadersAgree | LeanTee/GuestProg.lean:66-77 | the two number readers agree exactly off plus signs and overflow |
| Decimal.NatToDecLoop | LeanTee/GuestProg.lean:80-88 | the digit loop prints the shortest numeral |
| Decimal.ParseNatDecLoop | LeanTee/GuestProg.lean:66-77 | the digit loop with its early return reads the value |
| GuestProg.SerializeLines | host/compliance_lib/src/guest_prog.rs:38-54 | pushing lines one by one prints the program |
| GuestProg.ParseLoop | host/compliance_lib/src/guest_prog.rs:98-159 | the loop over five variables, with all its error exits, is the line-by-line parser |
| ParserLaws.WireFormat | LeanTee/GuestProg.lean:91-105 | the printed text of any program, letter by letter |
| ParserLaws.TrimMeans | host/compliance_lib/src/guest_prog.rs:98-102 | trimming removes the blanks at both ends and nothing else |
| ParserLaws.CleanMeans | host/compliance_lib/src/guest_prog.rs:98-102 | non-blank pieces are kept, trimmed and in order |
| ParserLaws.BeforeMeans | LeanTee/GuestProg.lean:117-159 | what Lean takes for a value ends where the key first occurs again |
| ParserLaws.FieldOfMeans | host/compliance_lib/src/guest_prog.rs:115-131 | the key of a line, literally; no line has two |
| ParserLaws.ValueMeans | host/compliance_lib/src/guest_prog.rs:115-131 | the value is all that follows the key, in Lean up to its next occurrence |
| ParserLaws.FlagMeans | host/compliance_lib/src/guest_prog.rs:73-79 | three words set the flag, three clear it, anything else is an error |
| ParserLaws.NumberMeans | host/compliance_lib/src/guest_prog.rs:131-136 | a number is digits after trimming, in Rust with one plus sign and below 2^64 |
| ParserLaws.LineErrorMeans | host/compliance_lib/src/guest_prog.rs:114-142 | whether and why a line cannot be read does not depend on the lines before |
| ParserLaws.LinesMean | host/compliance_lib/src/guest_prog.rs:114-142 | the first bad line gives the error; otherwise the last line of each key gives its field, and fields without a line keep their default |
| ParserLaws.ParseMeans | host/compliance_lib/src/guest_prog.rs:91-160 | every outcome of the parser, with exactly the texts that have it |
| ParserLaws.ParseBytesMeans | host/compliance_lib/src/guest_prog.rs:91-97 | of bytes, first the size and then the encoding decide |
| ParserLaws.FlagProgram | LeanTee/GuestProg.lean:110-114 | a version 2 program with one flag line is accepted exactly for the six words, and requires an interaction exactly for three of them |
| GuestProgLaws.PrintThenParse | LeanTee/GuestProg.lean:91-159 | for every well-shaped program, parsing its text gives it back up to blanks at the end of its name |
| GuestProgLaws.AcceptedShape | LeanTee/GuestProg.lean:117-159 | every accepted program is well shaped: trimmed non-empty entries, no separators, allow list not empty |
| GuestProgLaws.RoundTrip | host/compliance_lib/src/guest_prog.rs:30-54 | in each language parse(serialize p) = p if and only if p is canonical and its text fits the limit |
| GuestProgLaws.SerializeInjective | host/compliance_lib/src/guest_prog.rs:38-54 | programs as either parser returns them are equal when their texts are, even across the two languages |
| GuestRun.ConfigHashBinds | host/compliance_lib/src/guest_prog.rs:56-58 | equal program hashes mean equal programs, or the two texts collide |
| GuestProgLaws.AcceptedIsCanonical | host/compliance_lib/src/guest_prog.rs:91-160 | every program Rust accepts is canonical |
| GuestProgLaws.NormalFormSize | host/compliance_lib/src/guest_prog.rs:38-54 | the printed form of an accepted text is at most 4 bytes longer: 3 for the flag, 1 for the newline |
| GuestProgLaws.NormalForm | host/compliance_lib/src/guest_prog.rs:91-160 | every accepted text has a normal form that denotes the same program and fits with 4 bytes of room |
| GuestProgLaws.NormalFormBoundReached | host/compliance_lib/src/guest_prog.rs:73-79 | the 4 bytes are needed |
| GuestProgLaws.ParsersAgree | LeanTee/GuestProg.lean:117-159 | on texts without exotic blanks, repeated keys, plus signs or overflow both parsers give one result, errors included |
| GuestProgLaws.ParsersAgreeOnPrint | LeanTee/GuestProg.lean:91-159 | on a printed program canonical for Rust, both read the same if and only if it is canonical for Lean |
| GuestProgLaws.RepeatedKeyExample | LeanTee/GuestProg.lean:135-136 | a program whose own text Lean reads differently |
| GuestProgLaws.RepeatedKeyNotStable | LeanTee/GuestProg.lean:117-159 | a program that Lean reads from a text and that its own printed text does not give back |
| GuestRun.NormalFormRuns | host/compliance_lib/src/guest_prog.rs:162-182 | a text and its normal form give the same output on every input |
| GuestRun.TighteningNeverGrants | host/compliance_lib/src/guest_prog.rs:162-174 | less allow, more deny, required interaction or a lower cap never turns deny into allow |
| GuestRun.ReportShowsDecision | host/compliance_lib/src/guest_prog.rs:175-176 | equal outputs mean equal decisions |
| Decisions.ReportSays | host/compliance_lib/src/guest_prog.rs:175-176 | the bytes start with decision=allow exactly when the decision is allow, and with decision=deny exactly otherwise |
| Decisions.ReportReads | host/compliance_lib/src/guest_prog.rs:175-176 | an output is two lines, and the reason decodes to the hash of configuration and inputs |
| Decisions.AllowedMeans | host/compliance_lib/src/guest_prog.rs:162-174 | a program allows exactly the inputs within its size, with an interaction if required, that start with no denied and with some allowed action |
| Decisions.RunSays | LeanTee/GuestProg.lean:161-178 | the output of a run announces exactly what the program decides |
| Decisions.UndecodableIsDenied | host/compliance_lib/src/guest_prog.rs:163 | inputs that are not text are denied by every program and every registry guest |
| GuestRun.RunnersAgree | LeanTee/GuestProg.lean:161-178 | both interpreters give the same output on exactly the inputs that do not split the gate: those a program would allow, where it requires an interaction and only Rust sees one |
| GuestRun.GateMeans | host/compliance_lib/src/guest_prog.rs:81-85 | the gate passes exactly when some line is blanks of the language and then the key |
| GuestRun.LeanGateIsStricter | LeanTee/GuestProg.lean:161-162 | whatever passes Lean's gate passes Rust's |
| GuestRun.PlainInputsAgree | LeanTee/GuestProg.lean:161-162 | inputs without exotic blanks never split the gate |
| GuestRun.RunnersDifferExample | host/compliance_lib/src/guest_prog.rs:162-177 | a program and an input on which the outputs differ |
| GuestRun.OutputBindsProgram | host/compliance_lib/src/guest_prog.rs:175-176 | two programs with one output on one input are the same, or two preimages collide |
| GuestRun.BindInteraction | host/receipt/src/lib.rs:279-288 | the growing buffer is action, interaction and a payload that ends its line |
| GuestRun.BoundMeans | host/receipt/src/lib.rs:279-288 | bound inputs are the two lines and the payload unchanged, ended by a line break |
| GuestRun.BoundPassesGate | host/receipt/src/lib.rs:279-288 | bound inputs always pass the interaction gate, in both languages, whatever they contain |
| GuestRun.BoundDecision | host/compliance_lib/src/guest_prog.rs:162-174 | on bound inputs the decision is size, deny list and allow list alone |
| GuestRun.BoundRunsAgree | LeanTee/Guest.lean:127-132 | on bound inputs both interpreters agree without any condition on blanks |
| GuestRun.ParseAllowLoop | host/receipt/src/lib.rs:290-312 | the loop with its early return finds the deciding allow line |
| GuestRun.RulesNeverGrant | host/compliance_lib/src/guests.rs:87-119 | no rules text makes a registry guest allow what its built-in surface denies |
| Decisions.ParseAllowMeans | host/receipt/src/lib.rs:290-312 | the deciding allow line is the first, in Rust the first that asks for something |
| Decisions.AskedMeans | host/receipt/src/lib.rs:294-305 | what an entry asks for, with and without the action= prefix |
| Decisions.EffectivePrefixesMean | LeanTee/Guests/Registry.lean:83-89 | a registry guest goes by those of its own actions that the rules ask for, or by all of them when they ask for none |
| Decisions.RegistrySays | host/compliance_lib/src/guests.rs:105-119 | the output of a registry guest announces allow exactly when the inputs start with one of these |
| Decisions.RegistryAllows | LeanTee/Guests/Registry.lean:83-97 | the same in terms of actions and rules |
| Decisions.BuiltinSurfaces | host/compliance_lib/src/guests.rs:17-54 | the actions of the built-in guests, prefix by prefix |
| Decisions.BuiltinCodes | host/compliance_lib/src/guests.rs:17-54 | the code id of a built-in guest is its name between fixed texts |
| Decisions.SurfaceMeans | LeanTee/Guests/Registry.lean:21-22 | a guest's prefixes are its actions with action= in front |
| GuestRun.EffectivePrefixesRead | LeanTee/Guests/Registry.lean:83-89 | on plain rules Lean keeps exactly what Rust keeps and the prefixes that only Rust drops, though they treat empty entries differently |
| GuestRun.RegistryAgrees | LeanTee/Guests/Registry.lean:91-97 | on plain rules with any number of allow lines a registry guest gives one output in both languages if and only if the input does not start with a prefix that only Rust drops |
| GuestRun.RulesAgree | host/receipt/src/lib.rs:290-312 | on all inputs if and only if Rust drops nothing, which can be read off the rules |
| GuestRun.RegistryDiffersExample | host/compliance_lib/src/guests.rs:105-119 | rules with two allow lines on which the outputs differ |
| GuestRun.TwinsAgree | LeanTee/GuestSp1.lean:36-55 | the Lean guest is Rust's `run_measured` with errors mapped to the fixed denial, on every call whose program both parsers read alike, or whose rules are plain and do not split the input |
| Decisions.FoundMeans | host/compliance_lib/src/guests.rs:73-77 | the guest for a code hash is the first with that hash, and there is none exactly when no guest has it |
| Decisions.MeasuredProgram | host/compliance_lib/src/guest_prog.rs:201-211 | with a program the measured guest answers exactly when code and configuration are its own measurement and it parses; every error has its exact cause |
| Decisions.MeasuredRegistry | host/compliance_lib/src/guest_prog.rs:212-230 | without one, exactly for a built-in guest other than the runtime whose rules are absent or hash to the configuration |
| Decisions.MeasuredBindsProgram | host/compliance_lib/src/guest_prog.rs:206-209 | one configuration names one program, or two programs collide |
| Decisions.GuestCommits | LeanTee/GuestSp1.lean:25-45 | for a program the Lean guest commits the run, or the fixed denial |
| Decisions.GuestAllowsOnlyMeasured | LeanTee/GuestSp1.lean:36-45 | what the Lean guest commits announces allow exactly for a measured program that parses and allows the inputs |
| GuestRun.TwinsAgreeOnProgram | host/compliance_lib/src/guest_prog.rs:190-211 | on every program text past the measurement check: the guests agree exactly when both refuse it, or both read one program and the input does not split its gate, or two preimages collide |
| GuestRun.TwinsAgreeOnPrint | LeanTee/GuestSp1.lean:37-45 | on a printed program canonical for Rust: exactly when it is canonical for Lean and the input does not split the gate, or two preimages collide |
| GuestRun.TwinsAgreeOnRules | LeanTee/GuestSp1.lean:46-55 | on every call without a program and with plain rules: exactly when the call fails in both, or the rules do not split the input |
| Hex.HexRoundTrip | LeanTee/Hash.lean:45-56 | decoding an encoded byte string gives it back |
| Hex.HexDigits | LeanTee/Hash.lean:37-56 | the sixteen digits in their order, capitals read too |
| Hex.HexExample | LeanTee/Guest.lean:34-41 | the high half of a byte comes first |
| Hex.DecodeThenEncode | LeanTee/Hash.lean:37-56 | re-encoding what was decoded gives the text in lower case |
| Hex.DecodersAgree | LeanTee/Guest.lean:50-63 | the two decoders agree on every text without white space, and both read encoded text |
| Hex.SpaceIsIgnored | LeanTee/Guest.lean:50-63 | white space anywhere in a text makes no difference to the decoder that drops it |
| Hex.HexEncodeLoop | LeanTee/Guest.lean:34-41 | the loop prints two digits a byte |
| Hex.HexDecodeLoop | LeanTee/Hash.lean:45-56 | the loop, with its length check and early return, decodes |
| Framing.ConcatLenPrefixed | host/receipt/src/lib.rs:124-132 | the growing buffer is the framing of the list |
| Framing.ConcatExample | LeanTee/Hash.lean:22-33 | two chunks framed, byte by byte |
| Bytes.LastByte | LeanTee/Hash.lean:22-33 | the last byte of a length is its least significant |
| Bytes.FourBytes | LeanTee/Confidential.lean:50-57 | four bytes as a number, the first most significant |
| Framing.FramingRoundTrip | LeanTee/Hash.lean:22-33 | a decoder recovers the list if and only if every chunk is shorter than 2^32 bytes |
| Framing.ConcatInjective | LeanTee/Hash.lean:22-33 | equal framings mean equal lists, for lists of any lengths |
| Framing.LongChunkIsAmbiguous | LeanTee/Hash.lean:27-31 | one chunk of 2^32 zero bytes frames like 2^30 + 1 empty chunks |
| Framing.BytesEq | LeanTee/Hash.lean:14-20 | the loop decides equality |
| Pipe.Stdin.ReadExact | host/confidential/src/bin/sealed_worker.rs:44-50 | reads exactly n bytes and advances by n, or reports the end |
| Pipe.Stdin.ReadBlob | host/confidential/src/bin/sealed_worker.rs:52-64 | reads one blob, refusing lengths over 16 MiB before reading |
| Pipe.Stdin.ReadThree | host/confidential/src/bin/sealed_worker.rs:94-115 | the three reads in the order of main |
| Pipe.PipeRoundTrip | LeanTee/Confidential.lean:50-74 | the worker recovers exactly the three blobs and nothing is left, if and only if each is at most 16 MiB |
| Pipe.OversizedIsRefused | host/confidential/src/bin/sealed_worker.rs:54-56 | with a larger blob the reads fail as too large; nothing is shifted |
| Worker.FieldsLoop | LeanTee/Confidential.lean:94-100 | the loop over the printed lines |
| Worker.AnswerRoundTrip | LeanTee/Confidential.lean:91-108 | the server reads back what the worker printed if and only if there are outputs and the digest has 32 bytes |
| Worker.PrintedText | host/confidential/src/bin/sealed_worker.rs:135-138 | the printed answer, letter by letter |
| Worker.WorkerAnswers | LeanTee/Confidential.lean:71-108 | through both pipes the answer is what the worker computes from the request's own inputs, secret and program, or none when one is over 16 MiB |
| Worker.DispatchReports | host/confidential/src/bin/sealed_worker.rs:66-79 | whatever the guest, the worker's outputs are a report on the public inputs |
| EndToEnd.WorkerNames | host/compliance_lib/src/guests.rs:56-71 | the names the worker knows |
| EndToEnd.DispatchMeans | host/confidential/src/bin/sealed_worker.rs:66-79 | a program decides by itself whatever the secret; a registry guest decides by the secret, or by the third blob without one, and is configured by its hash |
| EndToEnd.SealedSays | host/confidential/src/bin/sealed_worker.rs:66-138 | the worker's answer announces exactly what program or secret decide, with the hash of the secret |
| Receipt.PreimagesDisjoint | host/receipt/src/lib.rs:151-196 | result-hash, mock-proof and two-chunk preimages never coincide with one another, nor do result preimages of the two hash domains |
| Receipt.MockPreimagesDisjoint | host/receipt/src/lib.rs:182-196 | nor do mock-proof preimages of the two mock suites |
| Receipt.PairPreimage | LeanTee/Services.lean:335-346 | two-chunk preimages coincide exactly when their chunks do |
| Receipt.ResultPreimageInjective | host/receipt/src/lib.rs:151-170 | a result preimage determines code, config, inputs, outputs and nonce |
| Receipt.MockPreimageInjective | host/receipt/src/lib.rs:182-196 | a mock-proof preimage determines code, config, inputs and outputs |
| Receipt.PreimagesRead | host/receipt/src/lib.rs:151-196 | tag and fields of every preimage as a reader of the framing sees them |
| Receipt.SuiteHashes | host/receipt/src/lib.rs:66-108 | which hash function and which tag belong to which suite |
| Receipt.SuiteNames | host/receipt/src/lib.rs:47-92 | the names of the suites, profiles and blanks included |
| Receipt.AcceptMockOutcome | host/receipt/src/lib.rs:253-277 | which receipts are accepted, and which complaint every other one meets |
| Receipt.BuiltIsAccepted | host/receipt/src/lib.rs:253-277 | every receipt built from the two hash functions is accepted |
| Receipt.AcceptanceDetermines | host/receipt/src/lib.rs:253-277 | two accepted receipts of one suite with one evidence agree on all fields and the proof, or collide |
| Receipt.ProofDetermines | host/receipt/src/lib.rs:253-277 | two receipts of one suite accepted with one proof agree on code, config, inputs and outputs, or the preimages collide |
| Receipt.SuitesDoNotCrossVerify | host/receipt/src/lib.rs:19-22 | acceptance under both mock suites would need the two hash functions to agree on different preimages |
| Receipt.EvidenceIsNotProof | host/receipt/src/lib.rs:70-80 | SP1 is never accepted here, and evidence that is its own proof is a collision |
| Heap.MallocKeeps | host/guest_lean/src/sp1_malloc.rs:12-26 | taking a block and writing its header keeps the heap invariant and every other block |
| Heap.FreeKeeps | host/guest_lean/src/sp1_malloc.rs:61-72 | giving a live block back keeps the heap invariant |
| Heap.WriteKeeps | host/guest_lean/src/sp1_malloc.rs:29-38 | a write inside a live block keeps the invariant and touches no other block |
| Heap.MallocEffect | host/guest_lean/src/sp1_malloc.rs:12-26 | seen from C, malloc adds one aligned block and changes nothing else |
| Heap.FreeEffect | host/guest_lean/src/sp1_malloc.rs:61-72 | the header of a live block yields the base and layout malloc obtained |
| Heap.LiveApart | host/guest_lean/src/sp1_malloc.rs:12-26 | live regions are 16-aligned and pairwise disjoint |
| Heap.BytesHeld | host/guest_lean/src/sp1_malloc.rs:12-72 | in every valid heap the bytes held for C code are the sizes of the live blocks plus 16 for each |
| Heap.LayoutLimits | host/guest_lean/src/sp1_malloc.rs:12-14 | the largest block the two targets can ask for |
| Heap.HeaderBytes | host/guest_lean/src/sp1_malloc.rs:19-22 | the header is 16 bytes before the block, least significant byte first |
| Heap.SizedHeap.constructor | host/guest_lean/src/sp1_malloc.rs:7-9 | an address space with any other clients and any allocator starts as a valid heap without live blocks |
| Heap.SizedHeap.Malloc | host/guest_lean/src/sp1_malloc.rs:12-26 | null if and only if the size is refused or the allocator declines, and then no change; otherwise a new aligned block of the requested size (1 for 0), and others keep their bytes |
| Heap.SizedHeap.Free | host/guest_lean/src/sp1_malloc.rs:61-72 | null is ignored; otherwise exactly that block and its allocation disappear |
| Heap.SizedHeap.Calloc | host/guest_lean/src/sp1_malloc.rs:29-38 | null if and only if the product overflows or the block cannot be had, otherwise a block of zeros |
| Heap.SizedHeap.CopyBytes | host/guest_lean/src/sp1_malloc.rs:55 | the non-overlapping copy |
| Heap.SizedHeap.Realloc | host/guest_lean/src/sp1_malloc.rs:41-58 | on failure the old block stays as it was; on success the first min(old, new) bytes and all other blocks are kept |
| Heap.SizedHeap.ForeignAlloc | host/guest_lean/src/sp1_malloc.rs:4-5 | another client of the allocator may take a block between calls; C code sees nothing of it |
| Heap.SizedHeap.ForeignFree | host/guest_lean/src/sp1_malloc.rs:4-5 | or give one back |
| Heap.SizedHeap.ForeignStore | host/guest_lean/src/sp1_malloc.rs:4-5 | or write inside its own |
| Mix32.StepIsPermutation | host/guest_lean_mid/c/lean_sp1_mid.c:7-10 | for each word a step is a bijection of the 32-bit states, with a two-sided inverse |
| Mix32.StepIsSymmetric | LeanTee/Sp1Mid.lean:22-24 | and for each state a bijection of the words |
| Mix32.MidRounds | host/guest_lean_mid/c/lean_sp1_mid.c:12-18 | the C loop is the Lean definition of the rounds |
| Mix32.RoundsArePermutation | LeanTee/Sp1Mid.lean:28-33 | any number of rounds is a bijection of the seeds |
| Mix32.FoldIsPermutation | host/guest_lean_mid/src/main.rs:25-29 | folding any list of words is a bijection of the states |
| Mix32.MidMain | host/guest_lean_mid/src/main.rs:20-39 | the guest commits the tag and the mixed word and consumes what was announced, or aborts on a short stream |
| Mix32.WordDeterminesOutput | host/guest_lean_mid/src/main.rs:20-39 | with the other words fixed every output has exactly one preimage among the 32-bit words |
| Mix32.OneWordMatters | host/guest_lean_mid/src/main.rs:22-34 | changing exactly one word changes the output if and only if it is one of the first 32 |
| Mix32.EmptyOutput | host/guest_lean_mid/src/main.rs:20-39 | the word committed for no input, derived round by round |
| Mix32.FoldedValue | host/guest_lean_mid/c/lean_sp1_mid.c:7-10 | the state after the words 1 and 2 |
| Quotas.QuotaState.Check | LeanTee/Control.lean:85-101 | the in-place check opens a window, or reports the limit that is reached |
| Quotas.CheckOutcome | LeanTee/Control.lean:85-101 | exactly when which limit is reported, and when a window opens |
| Quotas.QuotaState.Begin | LeanTee/Control.lean:103-105 | counts one request in flight and in the window |
| Quotas.QuotaState.End | LeanTee/Control.lean:107-108 | takes one request out of flight, saturating at zero |
| Quotas.RateBound | LeanTee/Control.lean:85-105 | no half-open second of any run admits more than 2·L requests, nor more than 2·L − 1 on a clock from 1000 ms on |
| Quotas.RateBoundReached | LeanTee/Control.lean:96-98 | for every L some run admits 2·L within one second |
| Quotas.LateRateBoundReached | LeanTee/Control.lean:96-98 | for every L some run on the later clock admits 2·L − 1 |
| Quotas.WideRateBound | LeanTee/Control.lean:85-105 | with at most w handlers between check and begin no second of any run admits more than 2·(L + w − 1), nor more than one less on the later clock, and nothing when L is 0 |
| Quotas.WideRateBoundReached | LeanTee/Control.lean:85-105 | for every L > 0 and w > 0 some run of width w admits 2·(L + w − 1) within one second |
| Quotas.InflightConserved | LeanTee/Control.lean:103-108 | in every interleaving the counter is the number of requests begun and not ended, and the decrement never saturates |
| Quotas.InflightBounded | LeanTee/Control.lean:86-90 | with at most w handlers between check and begin, fewer than limit + w are in flight; the limit itself when w is 1 |
| Quotas.InflightBoundReached | LeanTee/Control.lean:85-105 | for every limit L > 0 and every w > 0 some run of width w has L + w − 1 in flight |
| Server.JobStore.Put | LeanTee/Services.lean:30-31 | overwrites one entry |
| Server.JobStore.Find | LeanTee/Services.lean:38-46 | the fold over the entries, in any order, decides whether some stored receipt has the same evidence |
| Server.ProgramStore.Put | LeanTee/Services.lean:56-57 | overwrites one entry |
| Server.TeeServer.constructor | LeanTee/Services.lean:26-54 | a new server is in the initial state |
| Server.TeeServer.LoadProgram | LeanTee/Services.lean:173-200 | every exit of the handler is a step of the state machine; accepted bytes are stored under the hex of their hash |
| Server.TeeServer.PrepareRequest | LeanTee/Services.lean:243-286 | what passes the checks names a built-in guest by its code hash and binds its program or rules by their hash |
| Server.TeeServer.Begin | LeanTee/Services.lean:243-291 | checks, quota check and begin are one step; a refusal opens nothing |
| Server.TeeServer.Attempt | LeanTee/Services.lean:292-361 | the try block stores the receipt exactly when it succeeds, and what it proved itself carries its own hash and proof |
| Server.TeeServer.ProveRequest | LeanTee/Services.lean:295-334 | in process or sealed, the proof is the mock proof of the very inputs and outputs answered; sealed outputs are the worker's and show no secret text |
| Server.TeeServer.Finish | LeanTee/Services.lean:292-363 | success or failure, the request is ended: a step of the state machine |
| Server.TeeServer.Execute | LeanTee/Services.lean:240-363 | afterwards nothing is left open and the counter is back, whatever the outcome |
| Server.TeeServer.AcceptReceipt | LeanTee/Services.lean:378-437 | the early exits say yes exactly when key and confidentiality allow it and `acceptReceipt` does under the effective policy and proof verdict |
| ServicesLaws.RunKeeps | LeanTee/Services.lean:173-363 | in every reachable state programs are content-addressed and parse, the job store is what the puts made it, the counter is the number of open requests and within its limit |
| ServicesLaws.EndNeverSaturates | LeanTee/Control.lean:107-108 | no run takes the saturating branch of the decrement |
| AccessLaws.KeyMeans | LeanTee/Control.lean:141-147 | a configured key must be presented |
| AccessLaws.AclMeans | LeanTee/Control.lean:52-58 | the first entry of the tenant decides: it names the guest, or names none |
| AccessLaws.LoadOutcome | LeanTee/Services.lean:173-186 | what LoadProgram stores, and the exact reason of every refusal |
| AccessLaws.SecretOutcome | LeanTee/Services.lean:246-256 | who may send secrets, and the exact reason of every refusal |
| AccessLaws.GuestNames | LeanTee/Guests/Registry.lean:58-72 | the names a guest can be asked for by |
| AccessLaws.PrepareOutcome | LeanTee/Services.lean:243-286 | what a request is prepared as, and the exact reason of every refusal |
| AccessLaws.MeasureOutcome | LeanTee/Services.lean:212-228 | what Measure announces, and the exact reason of every refusal |
| AccessLaws.ServeOutcome | LeanTee/Services.lean:444-450 | what a prove service answers, for unknown code hashes too |
| AccessLaws.AcceptOutcomeMeans | LeanTee/Services.lean:378-437 | the verdict of Accept and its exact reason, in terms of the receipt's own fields |
| AccessLaws.LockedOut | LeanTee/Control.lean:141-147 | without the key no run ever leaves the initial state, and Accept says yes to nothing |
| AccessLaws.NothingLoaded | LeanTee/Control.lean:60-63 | a tenant that may not load never gets a program in |
| AccessLaws.IssuedIsAuthorized | LeanTee/Services.lean:243-286 | every request in flight and every receipt of every run is one that key and tenant lists allow |
| ServicesLaws.LoadedRunsAsInline | LeanTee/Services.lean:231-283 | in every later state Execute by a loaded program's id prepares what Execute with the bytes inline prepares, or two programs collide |
| ServicesLaws.FoundIffLastProof | LeanTee/Services.lean:38-46 | an issued receipt is found if and only if the last receipt put under its id has its proof reference |
| ServicesLaws.IssuedStaysFound | LeanTee/Services.lean:335-347 | if proofs are determined and nothing collides, every receipt ever issued is found in every later state |
| ServicesLaws.NewProofEvicts | LeanTee/Services.lean:346-347 | another proof for the same claim makes the earlier receipt unknown |
| Witnesses.SecondProofExample | LeanTee/Services.lean:346-347 | a run of two Executes of one request with two proofs, after which the first receipt is not found |
| ServicesLaws.SameClaimReplaces | LeanTee/Services.lean:346-347 | another receipt of the same claim has the same id and takes the first one's place, labels and all |
| Witnesses.SealedLabelReplaced | LeanTee/Services.lean:324-347 | with another worker, whose answer is what the host computes on the inputs with the digest line, a public request replaces a sealed receipt, without its label |
| RunLaws.RerunIsIdempotent | LeanTee/Services.lean:294-347 | in every run, serving one request a second time with the same answer of prover or worker changes nothing in the job store, if proofs and labels are determined by what they are about, or preimages collide |
| RunLaws.RerunInProcess | LeanTee/Services.lean:301-310 | a server that proves in process and is sent no secrets needs no such condition |
| WorkerLaws.SealedLabelsFollowClaim | LeanTee/Services.lean:322-334 | two sealed receipts with the same inputs carry the same labels |
| WorkerLaws.SealedClaimIsOwn | host/confidential/src/bin/sealed_worker.rs:66-79 | no request proved in process has the claim of a receipt that the repository's worker sealed, or two reason preimages collide |
| WorkerLaws.SealedIsNotReplaced | LeanTee/Services.lean:346-347 | hence none replaces it in the store, or preimages collide |
| ServicesLaws.TwoChunkPreimages | LeanTee/Services.lean:335-346 | preimages of nonces, job ids and reasons coincide exactly when the fields they are made of do |
| Witnesses.NonceCanBeJobId | LeanTee/Services.lean:335-346 | a request that is issued with the nonce that is another receipt's job id |
| ServicesLaws.LocalIsMockProved | LeanTee/Services.lean:137-171 | what Execute proved itself carries the hash and the mock proof of its own fields |
| EndToEnd.LocalSays | LeanTee/Services.lean:137-146 | the host's own outputs announce exactly what program or rules decide |
| EndToEnd.DigestLine | LeanTee/Confidential.lean:31-36 | the inputs of a sealed receipt, letter by letter |
| EndToEnd.ReceiptHashes | LeanTee/Services.lean:335-346 | result hash, mock proof and job id over the receipt's own fields |
| EndToEnd.CompleteIssues | LeanTee/Services.lean:292-347 | the receipt of a request proved in process or sealed, field by field |
| EndToEnd.CompleteRemote | LeanTee/Services.lean:301-340 | the receipt of a request proved remotely, field by field |
| EndToEnd.ReceiptsAreEarned | LeanTee/Services.lean:240-363 | in every run of a server with its own prover and worker, every receipt ever issued is for a request its caller was entitled to, is measured by that request, and announces what its policy decides |
| EndToEnd.SealedRulesMeasured | LeanTee/Services.lean:268-284 | measured and deciding rules of a sealed request are one exactly when the configuration is left to the secret, or both hash alike |
| Witnesses.SecretOverridesRules | LeanTee/Services.lean:268-334 | a request whose sealed receipt announces what its measured rules deny |
| ServicesLaws.MockReceiptAccepted | LeanTee/Services.lean:378-432 | Accept says yes to such a receipt if and only if key, confidentiality and policy allow it |
| ServicesLaws.RelabelledSp1Accepted | LeanTee/Services.lean:409-421 | a receipt relabelled as SP1 is accepted without trust if and only if, besides key and policy, the receipt itself is in the store |
| ServicesLaws.RelabelledLocalAccepted | LeanTee/Services.lean:386-392 | a mock receipt relabelled as local passes a requirement of local confidentiality if and only if, besides key and policy, some digest text is written into it |
| ServicesLaws.HandlerIsAcceptReceipt | LeanTee/Receipt.lean:86-97 | the handler is `acceptReceipt` under the effective policy and proof verdict, behind key and confidentiality |
| ServicesLaws.HostsAgree | host/receipt/src/lib.rs:253-277 | a host without policy or history accepts exactly what the Rust library accepts under the literal default suite |
| ServicesLaws.AcceptedIsBound | LeanTee/Services.lean:404-408 | two accepted receipts with one result hash are about the same claim, or collide |
| EndToEnd.ProofBindsOutputs | LeanTee/Services.lean:404-432 | two mock receipts accepted with one proof are about one measurement, input and output, or the preimages collide |
| SecretLaws.GuardMeans | LeanTee/Confidential.lean:38-48 | the check on decoded text sees a leak exactly when both sides are UTF-8 and the secret's bytes occur in the public ones |
| SecretLaws.SealedIssued | LeanTee/Services.lean:311-344 | a receipt with a secret is issued exactly when the worker answers and the check sees no leak in outputs and inputs |
| SecretLaws.SecretStaysOut | LeanTee/Services.lean:341-344 | the secret's bytes are in a receipt's inputs only if the secret is not text, and in its outputs only if either is not |
| WorkerLaws.OwnWorkerKeepsSecret | host/confidential/src/bin/sealed_worker.rs:66-143 | with the repository's worker the secret's bytes are never in a receipt's outputs, and in its inputs exactly when the secret is not text and the public inputs with the digest line contain it |
| Witnesses.SecretAlreadyPublic | LeanTee/Confidential.lean:38-48 | a request whose secret is a byte of a letter in its public inputs, and whose receipt shows it |
| SecretLaws.UndecodableOutputsPass | LeanTee/Confidential.lean:47-48 | the check alone: outputs of some worker that are not text carry any secret text out |
| SecretLaws.UndecodableSecretPasses | LeanTee/Confidential.lean:42-43 | the check alone: a secret that is not text is never looked for |
| Text.OccursAsText | LeanTee/Confidential.lean:47-48 | the bytes of a text occur among those of another exactly when the text occurs in the other |
| ServicesLaws.LongProgramsRunAsParseError | LeanTee/Services.lean:137-146 | an accepted program is run as a parse error if and only if it is longer than 65536 bytes |
| Witnesses.LongProgramExample | LeanTee/Services.lean:137-146 | for every size above 65536 a program that is loaded and executed under a raised limit, and denied with different reasons by host and guest |
| RunLaws.RunIsTrace | LeanTee/Services.lean:287-291 | every run of the server is a run of the quota, and admits the same requests |
| RunLaws.ServerRateBound | LeanTee/Services.lean:287-291 | no half-open second of any run of the server admits more than 2·L Executes |
| RunLaws.LocalReceiptsStayAccepted | LeanTee/Services.lean:378-432 | a locally proving server finds and accepts every receipt it ever issued, in every later state |
| RunLaws.LocalReceiptsPassAsSp1 | LeanTee/Services.lean:38-46 | relabelled as SP1 they are accepted too, without trusting the caller |
| RunLaws.Sp1ReceiptsStayAccepted | LeanTee/Services.lean:409-421 | so does one with a functional remote prover for its SP1 receipts, without trusting the caller |
| ProveLaws.PreparedShape | LeanTee/Services.lean:259-284 | a prepared request names a built-in guest by its code hash and its configuration by its hash |
| ProveLaws.MeasurePredicts | LeanTee/Services.lean:212-228 | Measure announces Execute's measurement, unless the configuration is taken from the secret |
| Witnesses.SecretConfiguration | LeanTee/Services.lean:268-284 | a request for which Measure announces another measurement, or the secret collides with the empty text |
| ProveLaws.ServedProveAgrees | LeanTee/Services.lean:444-450 | a prove service finds the guest by its code hash and answers what the host would have computed |
| ProveLaws.HostMatchesGuest | LeanTee/Services.lean:137-146 | the host's outputs are the measured guest's if and only if the program is within 65536 bytes, or, without a program, the guest is not the program runtime |
| Witnesses.RuntimeWithoutProgram | LeanTee/GuestSp1.lean:50-51 | a request without a program on which host and guest deny with different reasons |
| ProveLaws.HostMatchesRustGuest | host/compliance_lib/src/guest_prog.rs:190-230 | on safe calls they are also the Rust guest's |

## Left out

- Network plumbing, gRPC status texts, the protobuf codecs, clients and `main` programs.
- SP1 proving and verification, BLAKE3, the OpenSSL binding: hash functions and the remote prover are parameters.
- Process hardening, zeroizing, starting the worker and the binary form of its output.
- Files, environment, audit log, metrics, job files and sinks; loading of the policy and ACL files.
- The receipt's version, domain and sink id, which Execute sets to constants; like suite, confidentiality and secret digest they are not hashed.
- handleGetReceipt, handleGetProgram and handleSubmit: lookups without further logic.
- `runCompliance` and `resolve_allow_prefixes`: the single-guest predecessors of the registry guests.
- Sha256.LeanTeeSha256: copying into a Lean byte array is not modelled; messages of 2^61 bytes and more get a length field cut to 64 bits, as in the code, and are then outside the standard.
- GuestRun.RegistryAgrees: for rules with plain white space and no `allow=` inside an allow line; the two languages see different entries elsewhere.
- GuestProgLaws.ParsersAgree: one direction; the exact condition on whole texts would have to compare the values of every line.
- Decimal.UsizeRoundTrip: fixes `usize` at 64 bits, the width of the host.
- Heap.SizedHeap.Malloc: the other clients of the allocator write only inside their own blocks, and C code inside its own; concurrent calls do not arise in the guest.
- RunLaws.Sp1ReceiptsStayAccepted: that proofs are determined is a hypothesis about the receipts of the run; a prover that does not meet it is covered by `FoundIffLastProof`.
- Unicode normalisation and case folding: text is a sequence of scalar values with the white-space predicate of each language written out.
