/** The SDK's demo requests, built over a synthetic path, and what the guest makes of them. */
module Builder {
  import opened ByteStrings
  import opened Preimages
  import opened Attestation
  import opened Wrappers

  datatype ProveRequest = ProveRequest(wit: PrivateInputs, statement: AttestStatement)

  datatype DemoFixture = DemoFixture(
    npk: Digest,
    identifier: U128,
    programOwner: ProgramId,
    balance: U128,
    nonce: U128,
    dataSeed: Bytes,
    leafIndex: U64,
    treeDepth: nat,
    threshold: U128,
    contextId: Digest,
    presenterPubkey: PublicKey)

  method PrecomputeLeaf(sha: Sha, req: ProveRequest) returns (commit: Digest, leafHash: Digest)
    ensures commit == Commitment(OnBytes(sha), req.wit) && leafHash == Hash(OnBytes(sha), LeafInput(commit))
  {
    var w := req.wit;
    var accountId := DeriveAccountId(sha, w.npk, w.identifier);
    commit := ComputeCommitment(sha, accountId, w.programOwner, w.balance, w.nonce, w.dataHash);
    LeafOnBytes(sha, commit);
    leafHash := sha(commit);
  }

  /** The sibling at level `i`: the hash of 32 copies of the level's low byte. */
  function SyntheticSibling(sha: Sha, i: nat): Digest {
    sha(seq(32, _ => (i % 0x100) as Byte))
  }

  predicate LevelBytes(b: Bytes, i: nat) {
    forall k :: 0 <= k < |b| ==> b[k] == i % 0x100
  }

  method SyntheticMerklePath(sha: Sha, leafHash: Digest, leafIndex: U64, depth: nat)
    returns (path: seq<Digest>, root: Digest)
    ensures |path| == depth
    ensures forall i, b: Bytes :: 0 <= i < depth && |b| == 32 && LevelBytes(b, i) ==> path[i] == sha(b)
    ensures root == Fold(OnBytes(sha), leafHash, leafIndex, path)
  {
    path := [];
    for i := 0 to depth
      invariant |path| == i && forall k :: 0 <= k < i ==> path[k] == SyntheticSibling(sha, k)
    {
      path := path + [SyntheticSibling(sha, i)];
    }
    forall i, b: Bytes | 0 <= i < depth && |b| == 32 && LevelBytes(b, i) ensures path[i] == sha(b) {
      assert b == seq(32, _ => (i % 0x100) as Byte);
    }
    root := FoldMerklePath(sha, leafHash, leafIndex, path);
  }

  /** For every fixture and depth the request is anchored to its own root, so the attestation of it succeeds
      exactly when the balance meets the threshold, with the nullifier of the fixture's account. */
  method IntoRequest(sha: Sha, f: DemoFixture) returns (req: ProveRequest)
    ensures HoldingFieldsOf(f, sha, req.wit) && |req.wit.merklePath| == f.treeDepth
    ensures req.statement == AttestStatement(req.statement.merkleRoot, f.threshold, f.contextId, f.presenterPubkey)
    ensures Attested(OnBytes(sha), req.wit, req.statement)
      == if f.balance < f.threshold then Err(BalanceBelowThreshold)
         else Ok(Nullifier(OnBytes(sha), req.wit, f.presenterPubkey, f.contextId))
  {
    var dataHash := sha(f.dataSeed);
    var w := PrivateInputs(f.npk, f.identifier, f.programOwner, f.balance, f.nonce, dataHash, [], f.leafIndex);
    req := ProveRequest(w, AttestStatement(Zeros(32), f.threshold, f.contextId, f.presenterPubkey));
    var _, leafHash := PrecomputeLeaf(sha, req);
    var path, root := SyntheticMerklePath(sha, leafHash, f.leafIndex, f.treeDepth);
    req := ProveRequest(w.(merklePath := path), req.statement.(merkleRoot := root));
  }

  predicate HoldingFieldsOf(f: DemoFixture, sha: Sha, w: PrivateInputs) {
    w.npk == f.npk && w.identifier == f.identifier && w.programOwner == f.programOwner && w.balance == f.balance
    && w.nonce == f.nonce && w.dataHash == sha(f.dataSeed) && w.leafIndex == f.leafIndex
  }

  /** End to end on the host: prove_with_kind fills the journal stub with the nullifier it expects, and the guest
      commits a journal equal to that stub exactly when the attestation holds. */
  method ProveWithKind(sha: Sha, req: ProveRequest) returns (journal: Result<PublicJournal, Abort>)
    ensures journal.Ok? <==> Attested(OnBytes(sha), req.wit, req.statement).Ok?
    ensures journal.Ok? ==>
      && StatementOf(journal.value) == req.statement
      && journal.value.nullifier
           == Nullifier(OnBytes(sha), req.wit, req.statement.presenterPubkey, req.statement.contextId)
  {
    var s := req.statement;
    var accountId := DeriveAccountId(sha, req.wit.npk, req.wit.identifier);
    var nullifier := Hash(OnBytes(sha), NullifierInput(s.presenterPubkey, s.contextId, accountId));
    var stub := PublicJournal(s.merkleRoot, s.threshold, s.contextId, s.presenterPubkey, nullifier);
    journal := GuestMain(sha, req.wit, stub);
  }
}
