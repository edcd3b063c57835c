/** Membership proofs from the sequencer: folding one gives the commitment-set root. */
module SequencerClient {
  import opened ByteStrings
  import opened Positional
  import opened Preimages
  import opened Attestation
  import opened Merkle
  import opened Verifier
  import opened Wrappers

  datatype MembershipProof = MembershipProof(leafIndex: U64, siblings: seq<Digest>)

  /** The root a proof attests for a commitment. */
  function ProofRoot(h: HashFn, commitment: Digest, proof: MembershipProof): Digest {
    Fold(h, Hash(h, LeafInput(commitment)), proof.leafIndex, proof.siblings)
  }

  method FoldMembershipProof(sha: Sha, commitment: Digest, proof: MembershipProof) returns (node: Digest)
    ensures node == ProofRoot(OnBytes(sha), commitment, proof)
  {
    LeafOnBytes(sha, commitment);
    node := sha(commitment);
    var idx: U64 := proof.leafIndex;
    var i := 0;
    while i < |proof.siblings|
      invariant 0 <= i <= |proof.siblings|
      invariant Fold(OnBytes(sha), node, idx, proof.siblings[i..]) == ProofRoot(OnBytes(sha), commitment, proof)
    {
      var sib := proof.siblings[i];
      assert proof.siblings[i..][0] == sib && proof.siblings[i..][1..] == proof.siblings[i + 1..];
      NodeOnBytes(sha, node, sib);
      NodeOnBytes(sha, sib, node);
      if idx % 2 == 0 {
        node := sha(node + sib);
      } else {
        node := sha(sib + node);
      }
      idx := idx / 2;
      i := i + 1;
    }
  }

  /** LEZ's own form, which joins each pair in a 64-byte buffer. */
  method ComputeDigestForPath(sha: Sha, commitment: Digest, proof: MembershipProof) returns (result: Digest)
    ensures result == ProofRoot(OnBytes(sha), commitment, proof)
  {
    LeafOnBytes(sha, commitment);
    result := sha(commitment);
    var levelIndex: nat := proof.leafIndex;
    var i := 0;
    while i < |proof.siblings|
      invariant 0 <= i <= |proof.siblings|
      invariant Fold(OnBytes(sha), result, levelIndex, proof.siblings[i..])
        == ProofRoot(OnBytes(sha), commitment, proof)
    {
      var node := proof.siblings[i];
      assert proof.siblings[i..][0] == node && proof.siblings[i..][1..] == proof.siblings[i + 1..];
      NodeOnBytes(sha, result, node);
      NodeOnBytes(sha, node, result);
      var isLeftChild := levelIndex % 2 == 0;
      var bytes;
      if isLeftChild {
        bytes := JoinBuffer(result, node);
      } else {
        bytes := JoinBuffer(node, result);
      }
      result := sha(bytes);
      levelIndex := levelIndex / 2;
      i := i + 1;
    }
  }

  method JoinBuffer(left: Digest, right: Digest) returns (b: Bytes)
    ensures b == left + right
  {
    var bytes := new Byte[64](_ => 0);
    forall i | 0 <= i < 32 { bytes[i] := left[i]; }
    forall i | 32 <= i < 64 { bytes[i] := right[i - 32]; }
    b := bytes[..];
  }

  // ---- the current root

  /** Answers to getProofForCommitment. */
  type Sequencer = Digest -> Option<MembershipProof>

  function CommitmentSetRoot(h: HashFn, ask: Sequencer, known: Digest): Option<Digest> {
    match ask(known)
    case None => None
    case Some(proof) => Some(ProofRoot(h, known, proof))
  }

  predicate IsRootCurrent(h: HashFn, ask: Sequencer, merkleRoot: Digest, known: Digest) {
    CommitmentSetRoot(h, ask, known) == Some(merkleRoot)
  }

  /** A sequencer that answers from a tree: any position holding the commitment, with its sibling path, or
      nothing when the tree does not hold it. */
  ghost predicate AnswersFrom(h: HashFn, ask: Sequencer, t: Tree, d: nat)
    requires Perfect(t, d)
  {
    forall c: Digest {:trigger ask(c)} ::
      match ask(c)
      case None => c !in Leaves(t)
      case Some(p) => ValueAt(t, d, p.leafIndex) == c && p.siblings == Path(h, t, d, p.leafIndex)
  }

  /** Whichever included commitment is used, the derived root is the tree's, and the freshness check accepts
      exactly that root; with a commitment that is not included it accepts nothing. */
  lemma RootIndependent(h: HashFn, ask: Sequencer, t: Tree, d: nat, known: Digest, merkleRoot: Digest)
    requires Perfect(t, d) && AnswersFrom(h, ask, t, d)
    ensures CommitmentSetRoot(h, ask, known) == if known in Leaves(t) then Some(Root(h, t)) else None
    ensures IsRootCurrent(h, ask, merkleRoot, known) <==> known in Leaves(t) && merkleRoot == Root(h, t)
  {
    match ask(known)
    case None =>
    case Some(p) =>
      PathFoldsToRoot(h, t, d, p.leafIndex);
      LeafCount(t, d);
  }

  /** What a verifier off chain has after checking a credential and its root, given that the receipt proves the
      guest's statement for some witness: a real account holding at least the required minimum, and the nullifier
      of that account under the presented key. */
  lemma CheckedCredentialIsBacked(
    lib: Libraries, ask: Sequencer, t: Tree, d: nat, accounts: seq<Holding>, known: Digest,
    receipt: Bytes, nonce: Digest, der: Bytes, context: Digest, minimum: U128, j: PublicJournal, w: PrivateInputs)
    requires VerifyCredential(lib, receipt, nonce, der, context, minimum) == Ok(j)
    requires Attested(lib.hash, w, StatementOf(j)) == Ok(j.nullifier)
    requires Commits(lib.hash, t, d, accounts) && AnswersFrom(lib.hash, ask, t, d)
    requires IsRootCurrent(lib.hash, ask, j.merkleRoot, known)
    requires CollisionFree(lib.hash, w, t, accounts)
    ensures HoldingOf(w) in accounts && w.balance >= minimum
    ensures j.nullifier == Nullifier(lib.hash, w, j.presenterPubkey, context)
  {
    RootIndependent(lib.hash, ask, t, d, known, j.merkleRoot);
    AttestedAccountIsReal(lib.hash, w, StatementOf(j), t, d, accounts);
    assert HoldingOf(w) == accounts[w.leafIndex % Pow(2, d)];
  }
}
