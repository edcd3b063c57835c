/** The three verifiers of a presentation: the on-chain kernel `check_gate`, the off-chain
    `verify_credential` and the deep gate's `gated_check`. */
module Verifier {
  import opened ByteStrings
  import opened Preimages
  import opened Attestation
  import opened Wrappers

  /** Library code the repository calls: SHA-256, secp256k1 keys and signatures, the receipt verifier and the two
      deserialisers.  SHA-256 appears twice, on the values of `Preimages` and on plain text: `hash` is meant to be
      `OnBytes(sha)`, which no theorem needs to know. */
  datatype Libraries = Libraries(
    hash: HashFn,
    sha: Sha,
    keyParses: PublicKey -> bool,
    signatureParses: Bytes -> bool,
    verifies: (PublicKey, Digest, Bytes) -> bool,
    receiptVerifies: Bytes -> bool,
    decodeJournal: Bytes -> Option<PublicJournal>,
    decodeWitness: seq<U32> -> Option<PrivateInputs>)

  // ---- the presenter's challenge

  function ChallengeOf(nonce: Digest, j: PublicJournal): Preimage {
    ChallengeInput(nonce, j.merkleRoot, j.threshold, j.contextId, j.presenterPubkey, j.nullifier)
  }

  function ChallengeDigest(lib: Libraries, nonce: Digest, j: PublicJournal): Digest {
    Hash(lib.hash, ChallengeOf(nonce, j))
  }

  /** A signed digest is bound to one nonce and one journal, collisions apart. */
  lemma ChallengeBindsJournal(lib: Libraries, nonce: Digest, j: PublicJournal, nonce': Digest, j': PublicJournal)
    requires ChallengeDigest(lib, nonce, j) == ChallengeDigest(lib, nonce', j')
    ensures (nonce == nonce' && j == j') || Collide(lib.hash, ChallengeOf(nonce, j), ChallengeOf(nonce', j'))
  {
    EqualOrCollide(lib.hash, ChallengeOf(nonce, j), ChallengeOf(nonce', j'));
  }

  datatype SignatureError = InvalidPubkey | InvalidSignature | SignatureRejected

  function VerifyPresenter(lib: Libraries, j: PublicJournal, nonce: Digest, der: Bytes): Result<(), SignatureError> {
    if !lib.keyParses(j.presenterPubkey) then Err(InvalidPubkey)
    else if !lib.signatureParses(der) then Err(InvalidSignature)
    else if !lib.verifies(j.presenterPubkey, ChallengeDigest(lib, nonce, j), der) then Err(SignatureRejected)
    else Ok(())
  }

  /** The signature is the presenter key's over the challenge for this nonce and this journal. */
  predicate SignedBy(lib: Libraries, j: PublicJournal, nonce: Digest, der: Bytes) {
    && lib.keyParses(j.presenterPubkey) && lib.signatureParses(der)
    && lib.verifies(
         j.presenterPubkey,
         Hash(lib.hash,
              ChallengeInput(nonce, j.merkleRoot, j.threshold, j.contextId, j.presenterPubkey, j.nullifier)),
         der)
  }

  lemma PresenterIff(lib: Libraries, j: PublicJournal, nonce: Digest, der: Bytes)
    ensures VerifyPresenter(lib, j, nonce, der).Ok? <==> SignedBy(lib, j, nonce, der)
  {}

  // ---- the on-chain kernel

  datatype GateError = ContextMismatch | ThresholdTooLow | Signature(e: SignatureError)

  datatype GateInputs = GateInputs(
    attested: PublicJournal, expectedContextId: Digest, minimumThreshold: U128, challengeNonce: Digest, der: Bytes)

  function CheckGate(lib: Libraries, g: GateInputs): Result<(), GateError> {
    if g.attested.contextId != g.expectedContextId then Err(ContextMismatch)
    else if g.attested.threshold < g.minimumThreshold then Err(ThresholdTooLow)
    else match VerifyPresenter(lib, g.attested, g.challengeNonce, g.der)
      case Ok(_) => Ok(())
      case Err(e) => Err(Signature(e))
  }

  /** The kernel accepts exactly a signed journal for the context with at least the threshold. */
  lemma CheckGateIff(lib: Libraries, g: GateInputs)
    ensures CheckGate(lib, g).Ok? <==>
      && g.attested.contextId == g.expectedContextId && g.attested.threshold >= g.minimumThreshold
      && SignedBy(lib, g.attested, g.challengeNonce, g.der)
  {}

  /** What it refuses, it refuses for the first of its checks that fails. */
  lemma CheckGateReason(lib: Libraries, g: GateInputs, k: nat)
    requires FirstFails(GateChecks(lib, g), k)
    ensures CheckGate(lib, g) == Err(GateChecks(lib, g)[k].1)
  {
    var checks := GateChecks(lib, g);
    assert (k == 0 || checks[0].0) && (k <= 1 || checks[1].0) && (k <= 2 || checks[2].0) && (k <= 3 || checks[3].0);
  }

  function GateChecks(lib: Libraries, g: GateInputs): seq<(bool, GateError)> {
    var j := g.attested;
    [(j.contextId == g.expectedContextId, ContextMismatch),
     (j.threshold >= g.minimumThreshold, ThresholdTooLow),
     (lib.keyParses(j.presenterPubkey), Signature(InvalidPubkey)),
     (lib.signatureParses(g.der), Signature(InvalidSignature)),
     (SignedBy(lib, j, g.challengeNonce, g.der), Signature(SignatureRejected))]
  }

  // ---- the off-chain verifier

  datatype VerifyError = Receipt | Journal | Business(e: GateError)

  function VerifyReceipt(lib: Libraries, receipt: Bytes): Result<PublicJournal, VerifyError> {
    if !lib.receiptVerifies(receipt) then Err(Receipt)
    else match lib.decodeJournal(receipt)
      case Some(j) => Ok(j)
      case None => Err(Journal)
  }

  function VerifyCredential(lib: Libraries, receipt: Bytes, nonce: Digest, der: Bytes, expectedContextId: Digest,
                            minimumThreshold: U128): Result<PublicJournal, VerifyError> {
    match VerifyReceipt(lib, receipt)
    case Err(e) => Err(e)
    case Ok(j) =>
      if j.contextId != expectedContextId then Err(Business(ContextMismatch))
      else if j.threshold < minimumThreshold then Err(Business(ThresholdTooLow))
      else match VerifyPresenter(lib, j, nonce, der)
        case Err(e) => Err(Business(Signature(e)))
        case Ok(_) => Ok(j)
  }

  /** A receipt that verifies to a journal for the context, with at least the threshold, signed by its presenter. */
  predicate Credential(lib: Libraries, receipt: Bytes, nonce: Digest, der: Bytes, context: Digest, minimum: U128,
                       j: PublicJournal) {
    && lib.receiptVerifies(receipt) && lib.decodeJournal(receipt) == Some(j)
    && j.contextId == context && j.threshold >= minimum && SignedBy(lib, j, nonce, der)
  }

  /** The off-chain verifier returns a journal exactly when the receipt is a credential with that journal. */
  lemma CredentialIff(lib: Libraries, receipt: Bytes, nonce: Digest, der: Bytes, context: Digest, minimum: U128,
                      j: PublicJournal)
    ensures VerifyCredential(lib, receipt, nonce, der, context, minimum) == Ok(j)
      <==> Credential(lib, receipt, nonce, der, context, minimum, j)
  {}

  /** It refuses a receipt that does not verify, then one without a journal, and otherwise for the kernel's reason. */
  lemma CredentialReason(lib: Libraries, receipt: Bytes, nonce: Digest, der: Bytes, context: Digest, minimum: U128)
    ensures var r := VerifyCredential(lib, receipt, nonce, der, context, minimum);
      && (r == Err(Receipt) <==> !lib.receiptVerifies(receipt))
      && (r == Err(Journal) <==> lib.receiptVerifies(receipt) && lib.decodeJournal(receipt) == None)
      && (lib.receiptVerifies(receipt) && lib.decodeJournal(receipt).Some? ==>
            match CheckGate(lib, GateInputs(lib.decodeJournal(receipt).value, context, minimum, nonce, der))
            case Ok(_) => r == Ok(lib.decodeJournal(receipt).value)
            case Err(e) => r == Err(Business(e)))
  {}

  // ---- the deep gate

  const E_THRESHOLD_TOO_LOW := 3001
  const E_CONTEXT_MISMATCH := 3004
  const E_BAD_SIGNATURE := 3005
  const E_BAD_PUBKEY_LEN := 3006
  const E_BAD_WITNESS := 3007
  const E_NULLIFIER_MISMATCH := 3008
  const E_ANCHORED_BALANCE_TOO_LOW := 3009
  const E_PRESENTER_NOT_ATTESTED := 3010
  const E_PRESENTER_NOT_NATIVE := 3011
  const E_GATE_TAG_MISMATCH := 3012

  /** The built-in program whose balances the gate trusts. */
  function AuthenticatedTransfer(): ProgramId {
    [3170810844, 2526647253, 999807262, 1205602179, 3401962591, 3484055895, 2106546407, 1900691388]
  }

  datatype Account = Account(programOwner: ProgramId, balance: U128, nonce: U128, data: Bytes)

  datatype GateArgs = GateArgs(
    witnessWords: seq<U32>,
    merkleRoot: Digest,
    threshold: U128,
    contextId: Digest,
    presenterPubkey: Bytes,
    nullifier: Digest,
    presenterNonce: Digest,
    presenterSignatureDer: Bytes,
    expectedContextId: Digest,
    minimumThreshold: U128,
    gateTag: Digest)

  /** The call the gate chains to: the attestation program on this witness and statement. */
  datatype ChainedCall = ChainedCall(wit: PrivateInputs, statement: AttestStatement)

  function GateTag(lib: Libraries, nullifier: Digest, floor: U128, context: Digest): Digest {
    Hash(lib.hash, GateTagInput(nullifier, floor, context))
  }

  function JournalOf(a: GateArgs): PublicJournal
    requires |a.presenterPubkey| == 33
  {
    PublicJournal(a.merkleRoot, a.threshold, a.contextId, a.presenterPubkey, a.nullifier)
  }

  function GatedCheck(lib: Libraries, presenterId: Digest, presenter: Account, a: GateArgs): Result<ChainedCall, int> {
    if a.contextId != a.expectedContextId then Err(E_CONTEXT_MISMATCH)
    else if a.threshold < a.minimumThreshold then Err(E_THRESHOLD_TOO_LOW)
    else if |a.presenterPubkey| != 33 then Err(E_BAD_PUBKEY_LEN)
    else if VerifyPresenter(lib, JournalOf(a), a.presenterNonce, a.presenterSignatureDer).Err? then Err(E_BAD_SIGNATURE)
    else match lib.decodeWitness(a.witnessWords)
      case None => Err(E_BAD_WITNESS)
      case Some(w) =>
        var key: PublicKey := a.presenterPubkey;
        if Nullifier(lib.hash, w, key, a.contextId) != a.nullifier then Err(E_NULLIFIER_MISMATCH)
        else if presenterId != AccountId(lib.hash, w) then Err(E_PRESENTER_NOT_ATTESTED)
        else if presenter.programOwner != AuthenticatedTransfer() then Err(E_PRESENTER_NOT_NATIVE)
        else if presenter.balance < a.minimumThreshold then Err(E_ANCHORED_BALANCE_TOO_LOW)
        else if GateTag(lib, a.nullifier, a.minimumThreshold, a.expectedContextId) != a.gateTag then
          Err(E_GATE_TAG_MISMATCH)
        else Ok(ChainedCall(w, AttestStatement(a.merkleRoot, a.threshold, a.contextId, key)))
  }

  /** The presenter's signature is over the challenge for the very statement and nullifier of the arguments. */
  predicate ArgsSigned(lib: Libraries, a: GateArgs) {
    && |a.presenterPubkey| == 33 && lib.keyParses(a.presenterPubkey) && lib.signatureParses(a.presenterSignatureDer)
    && lib.verifies(
         a.presenterPubkey,
         Hash(lib.hash,
              ChallengeInput(a.presenterNonce, a.merkleRoot, a.threshold, a.contextId, a.presenterPubkey, a.nullifier)),
         a.presenterSignatureDer)
  }

  /** What the gate's arguments must say of the presenter and the witness. */
  predicate Bound(lib: Libraries, presenterId: Digest, presenter: Account, a: GateArgs, w: PrivateInputs) {
    && |a.presenterPubkey| == 33
    && a.nullifier == Hash(lib.hash, NullifierInput(a.presenterPubkey, a.contextId, AccountId(lib.hash, w)))
    && presenterId == AccountId(lib.hash, w)
    && presenter.programOwner
         == [3170810844, 2526647253, 999807262, 1205602179, 3401962591, 3484055895, 2106546407, 1900691388]
    && a.minimumThreshold <= presenter.balance && a.minimumThreshold <= a.threshold
    && a.contextId == a.expectedContextId
    && a.gateTag == Hash(lib.hash, GateTagInput(a.nullifier, a.minimumThreshold, a.expectedContextId))
  }

  /** The gate accepts exactly a signed presentation whose words decode to a witness everything is bound to, and then
      chains to the attestation of that very witness. */
  lemma GateAcceptsIff(lib: Libraries, presenterId: Digest, presenter: Account, a: GateArgs, w: PrivateInputs)
    requires lib.decodeWitness(a.witnessWords) == Some(w)
    ensures GatedCheck(lib, presenterId, presenter, a).Ok? <==>
      Bound(lib, presenterId, presenter, a, w) && ArgsSigned(lib, a)
    ensures GatedCheck(lib, presenterId, presenter, a).Ok? ==>
      GatedCheck(lib, presenterId, presenter, a).value
        == ChainedCall(w, AttestStatement(a.merkleRoot, a.threshold, a.contextId, a.presenterPubkey))
  {}

  /** The gate's checks in order, with their error codes.  Those after the decoding are about the decoded witness. */
  function DeepChecks(lib: Libraries, id: Digest, acct: Account, a: GateArgs): seq<(bool, int)> {
    var w := lib.decodeWitness(a.witnessWords);
    [(a.contextId == a.expectedContextId, 3004),
     (a.threshold >= a.minimumThreshold, 3001),
     (|a.presenterPubkey| == 33, 3006),
     (ArgsSigned(lib, a), 3005),
     (w.Some?, 3007),
     (w.Some? && |a.presenterPubkey| == 33 &&
        a.nullifier == Hash(lib.hash, NullifierInput(a.presenterPubkey, a.contextId, AccountId(lib.hash, w.value))),
      3008),
     (w.Some? && id == AccountId(lib.hash, w.value), 3010),
     (acct.programOwner == AuthenticatedTransfer(), 3011),
     (acct.balance >= a.minimumThreshold, 3009),
     (a.gateTag == Hash(lib.hash, GateTagInput(a.nullifier, a.minimumThreshold, a.expectedContextId)), 3012)]
  }

  /** A refused call gets the code of the first check that fails, so forging one thing alone brings up that thing's own
      code. */
  lemma GateReason(lib: Libraries, id: Digest, acct: Account, a: GateArgs, k: nat)
    requires FirstFails(DeepChecks(lib, id, acct, a), k)
    ensures GatedCheck(lib, id, acct, a) == Err(DeepChecks(lib, id, acct, a)[k].1)
  {
    var checks := DeepChecks(lib, id, acct, a);
    assert (k == 0 || checks[0].0) && (k <= 1 || checks[1].0) && (k <= 2 || checks[2].0) && (k <= 3 || checks[3].0);
    assert (k <= 4 || checks[4].0) && (k <= 5 || checks[5].0) && (k <= 6 || checks[6].0) && (k <= 7 || checks[7].0);
    assert k <= 8 || checks[8].0;
  }

  lemma GateNeedsWitness(lib: Libraries, presenterId: Digest, presenter: Account, a: GateArgs)
    requires GatedCheck(lib, presenterId, presenter, a).Ok?
    ensures lib.decodeWitness(a.witnessWords).Some?
  {}

  /** The same presentation passes or fails the identity and policy checks of all three verifiers alike:
      a signature made for one verifies in the others unchanged. */
  lemma VerifiersAgree(lib: Libraries, receipt: Bytes, presenterId: Digest, presenter: Account, a: GateArgs)
    requires |a.presenterPubkey| == 33
    requires VerifyReceipt(lib, receipt) == Ok(JournalOf(a))
    ensures CheckGate(lib, GateInputs(JournalOf(a), a.expectedContextId, a.minimumThreshold, a.presenterNonce,
                                      a.presenterSignatureDer)).Ok?
      <==> VerifyCredential(lib, receipt, a.presenterNonce, a.presenterSignatureDer, a.expectedContextId,
                            a.minimumThreshold) == Ok(JournalOf(a))
    ensures CheckGate(lib, GateInputs(JournalOf(a), a.expectedContextId, a.minimumThreshold, a.presenterNonce,
                                      a.presenterSignatureDer)).Err?
      <==> GatedCheck(lib, presenterId, presenter, a) in
             {Err(E_CONTEXT_MISMATCH), Err(E_THRESHOLD_TOO_LOW), Err(E_BAD_SIGNATURE)}
  {}

  // ---- the attestation program

  datatype ProgramError = Aborted(a: Abort) | ZeroNullifier

  /** The attestation as a chained program: the shared predicate, and a non-zero nullifier. */
  function AttestProgram(h: HashFn, c: ChainedCall): Result<Digest, ProgramError> {
    match Attested(h, c.wit, c.statement)
    case Err(e) => Err(Aborted(e))
    case Ok(n) => if n == Zeros(32) then Err(ZeroNullifier) else Ok(n)
  }
}
