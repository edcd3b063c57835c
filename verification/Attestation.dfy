/** The attestation predicate: what a witness and a public statement must satisfy, and the nullifier
    that results.  Mirrors the crate shared by the guest circuit and the host. */
module Attestation {
  import opened ByteStrings
  import opened Positional
  import opened Bits
  import opened Preimages
  import opened Sequences
  import opened Wrappers

  datatype PrivateInputs = PrivateInputs(
    npk: Digest,
    identifier: U128,
    programOwner: ProgramId,
    balance: U128,
    nonce: U128,
    dataHash: Digest,
    merklePath: seq<Digest>,
    leafIndex: U64)

  datatype AttestStatement = AttestStatement(
    merkleRoot: Digest, threshold: U128, contextId: Digest, presenterPubkey: PublicKey)

  datatype PublicJournal = PublicJournal(
    merkleRoot: Digest, threshold: U128, contextId: Digest, presenterPubkey: PublicKey, nullifier: Digest)

  /** The assertions whose failure aborts the guest. */
  datatype Abort = NotAnchored | BalanceBelowThreshold

  // ---- derived values

  function AccountId(h: HashFn, w: PrivateInputs): Digest {
    Hash(h, AccountIdInput(w.npk, w.identifier))
  }

  function CommitmentInputOf(h: HashFn, w: PrivateInputs): Preimage {
    CommitmentInput(AccountId(h, w), w.programOwner, w.balance, w.nonce, w.dataHash)
  }

  function Commitment(h: HashFn, w: PrivateInputs): Digest {
    Hash(h, CommitmentInputOf(h, w))
  }

  function Nullifier(h: HashFn, w: PrivateInputs, key: PublicKey, context: Digest): Digest {
    Hash(h, NullifierInput(key, context, AccountId(h, w)))
  }

  method DeriveAccountId(sha: Sha, npk: Digest, identifier: U128) returns (id: Digest)
    ensures id == Hash(OnBytes(sha), AccountIdInput(npk, identifier))
  {
    var bytes := new Byte[80](_ => 0);
    var prefix, le := AccountIdPrefix(), LittleEndian(identifier, 16);
    forall i | 0 <= i < 32 { bytes[i] := prefix[i]; }
    forall i | 32 <= i < 64 { bytes[i] := npk[i - 32]; }
    forall i | 64 <= i < 80 { bytes[i] := le[i - 64]; }
    assert bytes[..] == AccountIdBytes(npk, identifier);
    HashOnBytes(sha, AccountIdInput(npk, identifier));
    id := sha(bytes[..]);
  }

  method ComputeCommitment(sha: Sha, accountId: Digest, programOwner: ProgramId, balance: U128, nonce: U128,
                           dataHash: Digest)
    returns (c: Digest)
    ensures c == Hash(OnBytes(sha), CommitmentInput(accountId, programOwner, balance, nonce, dataHash))
  {
    var hasher := CommitmentPrefix() + accountId;
    hasher := AbsorbWords(hasher, programOwner);
    hasher := hasher + LittleEndian(balance, 16);
    hasher := hasher + LittleEndian(nonce, 16);
    hasher := hasher + dataHash;
    CommitmentOnBytes(sha, accountId, programOwner, balance, nonce, dataHash);
    c := sha(hasher);
  }

  method AbsorbWords(start: Bytes, words: seq<U32>) returns (hasher: Bytes)
    ensures hasher == start + WordBytes(words)
  {
    hasher := start;
    var i := 0;
    while i < |words|
      invariant 0 <= i <= |words| && hasher == start + WordBytes(words[..i])
    {
      hasher := AbsorbWord(hasher, start, words, i);
      i := i + 1;
    }
    assert words[..i] == words;
  }

  method AbsorbWord(hasher: Bytes, ghost start: Bytes, words: seq<U32>, i: nat) returns (r: Bytes)
    requires i < |words| && hasher == start + WordBytes(words[..i])
    ensures r == start + WordBytes(words[..i + 1])
  {
    r := hasher + LittleEndian(words[i], 4);
    SplitAt(words, i);
    assert words[..i + 1][..i] == words[..i] && words[..i + 1][i] == words[i];
    Associative(start, WordBytes(words[..i]), LittleEndian(words[i], 4));
  }

  // ---- the Merkle fold

  /** A node and its sibling in tree order: the node goes left when the index bit is 0. */
  function Pair(node: Digest, sibling: Digest, bit: nat): Preimage {
    if bit == 0 then NodeInput(node, sibling) else NodeInput(sibling, node)
  }

  /** From the leaf up: the lowest bit of the index belongs to the first sibling. */
  function Fold(h: HashFn, leaf: Digest, index: nat, siblings: seq<Digest>): Digest
    decreases |siblings|
  {
    if siblings == [] then leaf
    else Fold(h, Hash(h, Pair(leaf, siblings[0], index % 2)), index / 2, siblings[1..])
  }

  method FoldMerklePath(sha: Sha, leafHash: Digest, leafIndex: U64, siblings: seq<Digest>) returns (node: Digest)
    ensures node == Fold(OnBytes(sha), leafHash, leafIndex, siblings)
  {
    node := leafHash;
    var idx: U64 := leafIndex;
    var i := 0;
    while i < |siblings|
      invariant 0 <= i <= |siblings|
      invariant Fold(OnBytes(sha), node, idx, siblings[i..]) == Fold(OnBytes(sha), leafHash, leafIndex, siblings)
    {
      var sib := siblings[i];
      assert siblings[i..][0] == sib && siblings[i..][1..] == siblings[i + 1..];
      NodeOnBytes(sha, node, sib);
      NodeOnBytes(sha, sib, node);
      if idx % 2 == 0 {
        node := sha(node + sib);
      } else {
        node := sha(sib + node);
      }
      idx := idx / 2;
      i := i + 1;
    }
  }

  /** The same fold from the root down: the last sibling joins at the top, on the side of the top bit. */
  lemma {:induction false} FoldTop(h: HashFn, leaf: Digest, index: nat, siblings: seq<Digest>)
    requires siblings != []
    ensures var n := |siblings| - 1;
      Fold(h, leaf, index, siblings)
        == Hash(h, Pair(Fold(h, leaf, index, siblings[..n]), siblings[n], index / Pow(2, n) % 2))
    decreases |siblings|
  {
    var n := |siblings| - 1;
    if n > 0 {
      var up := Hash(h, Pair(leaf, siblings[0], index % 2));
      FoldTop(h, up, index / 2, siblings[1..]);
      assert siblings[1..][..n - 1] == siblings[..n][1..];
      HalfOfMod(index, Pow(2, n - 1));
    }
  }

  /** Only the low bits of the index, one per sibling, matter. */
  lemma {:induction false} FoldIndexLaw(h: HashFn, leaf: Digest, index: nat, siblings: seq<Digest>)
    ensures Fold(h, leaf, index, siblings) == Fold(h, leaf, index % Pow(2, |siblings|), siblings)
    decreases |siblings|
  {
    if siblings != [] {
      var p := Pow(2, |siblings| - 1);
      HalfOfMod(index, p);
      FoldIndexLaw(h, Hash(h, Pair(leaf, siblings[0], index % 2)), index / 2, siblings[1..]);
    }
  }

  // ---- the predicate

  /** The nullifier when the statement holds of the witness, or the first assertion that fails. */
  function Attested(h: HashFn, w: PrivateInputs, s: AttestStatement): Result<Digest, Abort> {
    if Fold(h, Hash(h, LeafInput(Commitment(h, w))), w.leafIndex, w.merklePath) != s.merkleRoot then Err(NotAnchored)
    else if w.balance < s.threshold then Err(BalanceBelowThreshold)
    else Ok(Nullifier(h, w, s.presenterPubkey, s.contextId))
  }

  method Attest(sha: Sha, w: PrivateInputs, statement: AttestStatement) returns (r: Result<Digest, Abort>)
    ensures r == Attested(OnBytes(sha), w, statement)
  {
    var accountId := DeriveAccountId(sha, w.npk, w.identifier);
    var leafCommitment := ComputeCommitment(sha, accountId, w.programOwner, w.balance, w.nonce,
                                            w.dataHash);
    LeafOnBytes(sha, leafCommitment);
    var leafHash := sha(leafCommitment);
    var recoveredRoot := FoldMerklePath(sha, leafHash, w.leafIndex, w.merklePath);
    if recoveredRoot != statement.merkleRoot {
      return Err(NotAnchored);
    }
    if !(w.balance >= statement.threshold) {
      return Err(BalanceBelowThreshold);
    }
    r := Ok(Hash(OnBytes(sha), NullifierInput(statement.presenterPubkey, statement.contextId, accountId)));
  }

  function StatementOf(j: PublicJournal): AttestStatement {
    AttestStatement(j.merkleRoot, j.threshold, j.contextId, j.presenterPubkey)
  }

  /** The standalone guest, the second copy of the predicate.  It commits exactly when the shared predicate
      holds of the stub's statement, and commits the derived nullifier whatever the stub held. */
  method GuestMain(sha: Sha, privIn: PrivateInputs, stub: PublicJournal)
    returns (committed: Result<PublicJournal, Abort>)
    ensures committed.Ok? <==> Attested(OnBytes(sha), privIn, StatementOf(stub)).Ok?
    ensures committed.Ok? ==>
      && StatementOf(committed.value) == StatementOf(stub)
      && committed.value.nullifier == Attested(OnBytes(sha), privIn, StatementOf(stub)).value
    ensures committed.Err? ==> committed.error == Attested(OnBytes(sha), privIn, StatementOf(stub)).error
  {
    var journal := stub;
    var accountId := DeriveAccountId(sha, privIn.npk, privIn.identifier);
    var leafCommitment := ComputeCommitment(sha, accountId, privIn.programOwner, privIn.balance, privIn.nonce,
                                            privIn.dataHash);
    LeafOnBytes(sha, leafCommitment);
    var leafHash := sha(leafCommitment);
    var recoveredRoot := FoldMerklePath(sha, leafHash, privIn.leafIndex, privIn.merklePath);
    if recoveredRoot != journal.merkleRoot {
      return Err(NotAnchored);
    }
    if privIn.balance < journal.threshold {
      return Err(BalanceBelowThreshold);
    }
    var nullifierInput := NullifierInput(journal.presenterPubkey, journal.contextId, accountId);
    journal := journal.(nullifier := Hash(OnBytes(sha), nullifierInput));
    committed := Ok(journal);
  }

  /** Two presentations share a nullifier just when key, context and account agree, collisions apart.
      The same account under another key is another nullifier: uniqueness is per key. */
  lemma NullifierIdentifies(h: HashFn, w: PrivateInputs, key: PublicKey, context: Digest,
                            w': PrivateInputs, key': PublicKey, context': Digest)
    requires !Collide(h, NullifierInput(key, context, AccountId(h, w)),
                      NullifierInput(key', context', AccountId(h, w')))
    requires !Collide(h, AccountIdInput(w.npk, w.identifier), AccountIdInput(w'.npk, w'.identifier))
    ensures Nullifier(h, w, key, context) == Nullifier(h, w', key', context')
      <==> key == key' && context == context' && w.npk == w'.npk && w.identifier == w'.identifier
  {
    if Nullifier(h, w, key, context) == Nullifier(h, w', key', context') {
      EqualOrCollide(h, NullifierInput(key, context, AccountId(h, w)),
                     NullifierInput(key', context', AccountId(h, w')));
      EqualOrCollide(h, AccountIdInput(w.npk, w.identifier), AccountIdInput(w'.npk, w'.identifier));
    }
  }
}
