/** Everything the primitive hashes, as values, with the bytes each one is serialised to.
    SHA-256 itself is any function from byte strings to 32 bytes. */
module Preimages {
  import opened ByteStrings
  import opened Sequences

  /** A hash of byte strings. */
  type Sha = Bytes -> Digest

  /** The same hash as a function of the values hashed: as `SerialisedInjective` shows, any function of the values
      is some function of their bytes. */
  type HashFn = Preimage -> Digest

  // 32-byte domain separators, zero-filled.
  function CommitmentPrefix(): (b: Bytes) ensures |b| == 32 { Tag("/LEE/v0.3/Commitment/", 32) }

  function AccountIdPrefix(): (b: Bytes) ensures |b| == 32 { Tag("/LEE/v0.3/AccountId/Private/", 32) }

  function NullifierPrefix(): (b: Bytes) ensures |b| == 32 { Tag("/lp-0005/v0.1/Nullifier/", 32) }

  function GateTagPrefix(): (b: Bytes) ensures |b| == 32 { Tag("/lp-0005/v0.1/GateTag/", 32) }

  function PdaPrefix(): (b: Bytes) ensures |b| == 32 { Tag("/LEE/v0.2/AccountId/PDA/", 32) }

  // The challenge tag is not padded.
  function ChallengeTag(): (b: Bytes) ensures |b| == 33 { Tag("/lp-0005/v0.1/PresenterChallenge/", 33) }

  /** The kinds of hashed value and their fields. */
  datatype Preimage =
    | LeafInput(value: Digest)
    | NodeInput(left: Digest, right: Digest)
    | AccountIdInput(npk: Digest, identifier: U128)
    | CommitmentInput(accountId: Digest, programOwner: ProgramId, balance: U128, nonce: U128, dataHash: Digest)
    | NullifierInput(presenter: PublicKey, context: Digest, account: Digest)
    | GateTagInput(nullifier: Digest, floor: U128, gateContext: Digest)
    | ChallengeInput(challengeNonce: Digest, root: Digest, threshold: U128, boundContext: Digest,
                     signer: PublicKey, boundNullifier: Digest)
    | PdaInput(program: ProgramId, seed: Digest)

  function AccountIdBytes(npk: Digest, id: U128): (b: Bytes) ensures |b| == 80 {
    AccountIdPrefix() + npk + LittleEndian(id, 16)
  }

  function CommitmentBytes(acct: Digest, owner: ProgramId, bal: U128, nonce: U128, data: Digest): (b: Bytes)
    ensures |b| == 160
  {
    CommitmentPrefix() + acct + WordBytes(owner) + LittleEndian(bal, 16) + LittleEndian(nonce, 16) + data
  }

  function NullifierBytes(key: PublicKey, ctx: Digest, acct: Digest): (b: Bytes) ensures |b| == 129 {
    NullifierPrefix() + key + ctx + acct
  }

  function GateTagBytes(n: Digest, floor: U128, ctx: Digest): (b: Bytes) ensures |b| == 112 {
    GateTagPrefix() + n + LittleEndian(floor, 16) + ctx
  }

  function ChallengeBytes(nonce: Digest, root: Digest, t: U128, ctx: Digest, key: PublicKey, n: Digest): (b: Bytes)
    ensures |b| == 210
  {
    ChallengeTag() + nonce + root + LittleEndian(t, 16) + ctx + key + n
  }

  function PdaBytes(program: ProgramId, seed: Digest): (b: Bytes) ensures |b| == 96 {
    PdaPrefix() + WordBytes(program) + seed
  }

  function Serialised(p: Preimage): Bytes {
    match p
    case LeafInput(v) => v
    case NodeInput(l, r) => l + r
    case AccountIdInput(npk, id) => AccountIdBytes(npk, id)
    case CommitmentInput(acct, owner, bal, nonce, data) => CommitmentBytes(acct, owner, bal, nonce, data)
    case NullifierInput(key, ctx, acct) => NullifierBytes(key, ctx, acct)
    case GateTagInput(n, floor, ctx) => GateTagBytes(n, floor, ctx)
    case ChallengeInput(nonce, root, t, ctx, key, n) => ChallengeBytes(nonce, root, t, ctx, key, n)
    case PdaInput(program, seed) => PdaBytes(program, seed)
  }

  /** The length of a serialisation tells its kind. */
  function Size(p: Preimage): nat {
    match p
    case LeafInput(_) => 32
    case NodeInput(_, _) => 64
    case AccountIdInput(_, _) => 80
    case PdaInput(_, _) => 96
    case GateTagInput(_, _, _) => 112
    case NullifierInput(_, _, _) => 129
    case CommitmentInput(_, _, _, _, _) => 160
    case ChallengeInput(_, _, _, _, _, _) => 210
  }

  lemma SerialisedSize(p: Preimage)
    ensures |Serialised(p)| == Size(p)
  {
    match p
    case LeafInput(_) =>
    case NodeInput(_, _) =>
    case AccountIdInput(_, _) =>
    case CommitmentInput(_, _, _, _, _) =>
    case NullifierInput(_, _, _) =>
    case GateTagInput(_, _, _) =>
    case ChallengeInput(_, _, _, _, _, _) =>
    case PdaInput(_, _) =>
  }

  // ---- the layouts, place by place

  /** The bytes that stand for a value: which text, field or number is at which place.  A program id's words are laid
      out as `ByteStrings.WordByteAt` says. */
  predicate Laid(b: Bytes, p: Preimage) {
    match p
    case LeafInput(v) => b == v
    case NodeInput(l, r) => |b| == 64 && b[0..32] == l && b[32..64] == r
    case AccountIdInput(npk, id) =>
      |b| == 80 && TextAt(b, "/LEE/v0.3/AccountId/Private/", 32) && b[32..64] == npk && NumberAt(b, 64, 16, id)
    case CommitmentInput(acct, owner, bal, nonce, data) =>
      && |b| == 160 && TextAt(b, "/LEE/v0.3/Commitment/", 32) && b[32..64] == acct && b[64..96] == WordBytes(owner)
      && NumberAt(b, 96, 16, bal) && NumberAt(b, 112, 16, nonce) && b[128..160] == data
    case NullifierInput(key, ctx, acct) =>
      && |b| == 129 && TextAt(b, "/lp-0005/v0.1/Nullifier/", 32)
      && b[32..65] == key && b[65..97] == ctx && b[97..129] == acct
    case GateTagInput(n, floor, ctx) =>
      && |b| == 112 && TextAt(b, "/lp-0005/v0.1/GateTag/", 32)
      && b[32..64] == n && NumberAt(b, 64, 16, floor) && b[80..112] == ctx
    case ChallengeInput(nonce, root, t, ctx, key, n) =>
      && |b| == 210 && TextAt(b, "/lp-0005/v0.1/PresenterChallenge/", 33) && b[33..65] == nonce && b[65..97] == root
      && NumberAt(b, 97, 16, t) && b[113..145] == ctx && b[145..178] == key && b[178..210] == n
    case PdaInput(program, seed) =>
      |b| == 96 && TextAt(b, "/LEE/v0.2/AccountId/PDA/", 32) && b[32..64] == WordBytes(program) && b[64..96] == seed
  }

  /** A byte string is hashed for a value exactly when it has the value's layout. */
  lemma LayoutIff(b: Bytes, p: Preimage)
    ensures b == Serialised(p) <==> Laid(b, p)
  {
    SerialisedSize(p);
    if |b| == Size(p) {
      assert b == b[0..|b|];
      match p
      case LeafInput(_) =>
      case NodeInput(l, r) => JoinSlices(b, 0, 32, 64, l, r);
      case AccountIdInput(npk, id) => AccountIdLaid(b, npk, id);
      case CommitmentInput(acct, owner, bal, nonce, data) => CommitmentLaid(b, acct, owner, bal, nonce, data);
      case NullifierInput(key, ctx, acct) => NullifierLaid(b, key, ctx, acct);
      case GateTagInput(n, floor, ctx) => GateTagLaid(b, n, floor, ctx);
      case ChallengeInput(nonce, root, t, ctx, key, n) => ChallengeLaid(b, nonce, root, t, ctx, key, n);
      case PdaInput(program, seed) => PdaLaid(b, program, seed);
    }
  }

  lemma AccountIdLaid(b: Bytes, npk: Digest, id: U128)
    requires |b| == 80
    ensures b[0..80] == AccountIdBytes(npk, id) <==> Laid(b, AccountIdInput(npk, id))
  {
    var a1 := AccountIdPrefix();
    JoinSlices(b, 0, 64, 80, a1 + npk, LittleEndian(id, 16));
    JoinSlices(b, 0, 32, 64, a1, npk);
    TextIffTag(b, "/LEE/v0.3/AccountId/Private/", 32);
    NumberIffLittleEndian(b, 64, 16, id);
  }

  lemma CommitmentLaid(b: Bytes, acct: Digest, owner: ProgramId, bal: U128, nonce: U128, data: Digest)
    requires |b| == 160
    ensures b[0..160] == CommitmentBytes(acct, owner, bal, nonce, data)
      <==> Laid(b, CommitmentInput(acct, owner, bal, nonce, data))
  {
    var head := CommitmentPrefix() + acct + WordBytes(owner);
    JoinSlices(b, 0, 128, 160, head + LittleEndian(bal, 16) + LittleEndian(nonce, 16), data);
    NumbersLaid(b, head, bal, nonce);
    CommitmentHeadLaid(b, acct, owner);
  }

  lemma NumbersLaid(b: Bytes, head: Bytes, bal: U128, nonce: U128)
    requires |b| >= 128 && |head| == 96
    ensures b[0..128] == head + LittleEndian(bal, 16) + LittleEndian(nonce, 16)
      <==> b[0..96] == head && NumberAt(b, 96, 16, bal) && NumberAt(b, 112, 16, nonce)
  {
    JoinSlices(b, 0, 112, 128, head + LittleEndian(bal, 16), LittleEndian(nonce, 16));
    JoinSlices(b, 0, 96, 112, head, LittleEndian(bal, 16));
    NumberIffLittleEndian(b, 96, 16, bal);
    NumberIffLittleEndian(b, 112, 16, nonce);
  }

  lemma CommitmentHeadLaid(b: Bytes, acct: Digest, owner: ProgramId)
    requires |b| >= 96
    ensures b[0..96] == CommitmentPrefix() + acct + WordBytes(owner)
      <==> TextAt(b, "/LEE/v0.3/Commitment/", 32) && b[32..64] == acct && b[64..96] == WordBytes(owner)
  {
    JoinSlices(b, 0, 64, 96, CommitmentPrefix() + acct, WordBytes(owner));
    JoinSlices(b, 0, 32, 64, CommitmentPrefix(), acct);
    TextIffTag(b, "/LEE/v0.3/Commitment/", 32);
  }

  lemma NullifierLaid(b: Bytes, key: PublicKey, ctx: Digest, acct: Digest)
    requires |b| == 129
    ensures b[0..129] == NullifierBytes(key, ctx, acct) <==> Laid(b, NullifierInput(key, ctx, acct))
  {
    var a1 := NullifierPrefix();
    JoinSlices(b, 0, 97, 129, a1 + key + ctx, acct);
    JoinSlices(b, 0, 65, 97, a1 + key, ctx);
    JoinSlices(b, 0, 32, 65, a1, key);
    TextIffTag(b, "/lp-0005/v0.1/Nullifier/", 32);
  }

  lemma GateTagLaid(b: Bytes, n: Digest, floor: U128, ctx: Digest)
    requires |b| == 112
    ensures b[0..112] == GateTagBytes(n, floor, ctx) <==> Laid(b, GateTagInput(n, floor, ctx))
  {
    var a1 := GateTagPrefix();
    JoinSlices(b, 0, 80, 112, a1 + n + LittleEndian(floor, 16), ctx);
    JoinSlices(b, 0, 64, 80, a1 + n, LittleEndian(floor, 16));
    JoinSlices(b, 0, 32, 64, a1, n);
    TextIffTag(b, "/lp-0005/v0.1/GateTag/", 32);
    NumberIffLittleEndian(b, 64, 16, floor);
  }

  lemma ChallengeLaid(b: Bytes, nonce: Digest, root: Digest, t: U128, ctx: Digest, key: PublicKey, n: Digest)
    requires |b| == 210
    ensures b[0..210] == ChallengeBytes(nonce, root, t, ctx, key, n)
      <==> Laid(b, ChallengeInput(nonce, root, t, ctx, key, n))
  {
    var a1 := ChallengeTag();
    var a2 := a1 + nonce;
    var a3 := a2 + root;
    var a4 := a3 + LittleEndian(t, 16);
    var a5 := a4 + ctx;
    JoinSlices(b, 0, 178, 210, a5 + key, n);
    JoinSlices(b, 0, 145, 178, a5, key);
    JoinSlices(b, 0, 113, 145, a4, ctx);
    JoinSlices(b, 0, 97, 113, a3, LittleEndian(t, 16));
    JoinSlices(b, 0, 65, 97, a2, root);
    JoinSlices(b, 0, 33, 65, a1, nonce);
    TextIffTag(b, "/lp-0005/v0.1/PresenterChallenge/", 33);
    NumberIffLittleEndian(b, 97, 16, t);
  }

  lemma PdaLaid(b: Bytes, program: ProgramId, seed: Digest)
    requires |b| == 96
    ensures b[0..96] == PdaBytes(program, seed) <==> Laid(b, PdaInput(program, seed))
  {
    var a1 := PdaPrefix();
    JoinSlices(b, 0, 64, 96, a1 + WordBytes(program), seed);
    JoinSlices(b, 0, 32, 64, a1, WordBytes(program));
    TextIffTag(b, "/LEE/v0.2/AccountId/PDA/", 32);
  }

  // ---- hashing

  function OnBytes(sha: Sha): HashFn {
    (p: Preimage) => sha(Serialised(p))
  }

  function Hash(h: HashFn, p: Preimage): Digest {
    h(p)
  }

  lemma HashOnBytes(sha: Sha, p: Preimage)
    ensures Hash(OnBytes(sha), p) == sha(Serialised(p))
  {}

  lemma LeafOnBytes(sha: Sha, v: Digest)
    ensures Hash(OnBytes(sha), LeafInput(v)) == sha(v)
  {
    HashOnBytes(sha, LeafInput(v));
  }

  lemma NodeOnBytes(sha: Sha, l: Digest, r: Digest)
    ensures Hash(OnBytes(sha), NodeInput(l, r)) == sha(l + r)
  {
    HashOnBytes(sha, NodeInput(l, r));
  }

  lemma CommitmentOnBytes(sha: Sha, acct: Digest, owner: ProgramId, bal: U128, nonce: U128, data: Digest)
    ensures Hash(OnBytes(sha), CommitmentInput(acct, owner, bal, nonce, data))
      == sha(CommitmentPrefix() + acct + WordBytes(owner) + LittleEndian(bal, 16) + LittleEndian(nonce, 16) + data)
  {
    HashOnBytes(sha, CommitmentInput(acct, owner, bal, nonce, data));
  }

  /** Every serialisation binds its kind and all its fields. */
  lemma SerialisedInjective(p: Preimage, q: Preimage)
    requires Serialised(p) == Serialised(q)
    ensures p == q
  {
    SerialisedSize(p);
    SerialisedSize(q);
    match p
    case LeafInput(_) =>
    case NodeInput(l, r) => ConcatInjective(l, r, q.left, q.right);
    case AccountIdInput(_, _) => AccountIdBinds(p, q);
    case CommitmentInput(_, _, _, _, _) => CommitmentBinds(p, q);
    case NullifierInput(_, _, _) => NullifierBinds(p, q);
    case GateTagInput(_, _, _) => GateTagBinds(p, q);
    case ChallengeInput(_, _, _, _, _, _) => ChallengeBinds(p, q);
    case PdaInput(_, _) => PdaBinds(p, q);
  }

  lemma AccountIdBinds(p: Preimage, q: Preimage)
    requires p.AccountIdInput? && q.AccountIdInput? && Serialised(p) == Serialised(q)
    ensures p == q
  {
    ConcatInjective(AccountIdPrefix() + p.npk, LittleEndian(p.identifier, 16),
                    AccountIdPrefix() + q.npk, LittleEndian(q.identifier, 16));
    ConcatInjective(AccountIdPrefix(), p.npk, AccountIdPrefix(), q.npk);
    U128Injective(p.identifier, q.identifier);
  }

  lemma CommitmentBinds(p: Preimage, q: Preimage)
    requires p.CommitmentInput? && q.CommitmentInput? && Serialised(p) == Serialised(q)
    ensures p == q
  {
    var a1 := CommitmentPrefix() + p.accountId;
    var b1 := CommitmentPrefix() + q.accountId;
    var a2, b2 := a1 + WordBytes(p.programOwner), b1 + WordBytes(q.programOwner);
    var a3, b3 := a2 + LittleEndian(p.balance, 16), b2 + LittleEndian(q.balance, 16);
    var a4, b4 := a3 + LittleEndian(p.nonce, 16), b3 + LittleEndian(q.nonce, 16);
    ConcatInjective(a4, p.dataHash, b4, q.dataHash);
    ConcatInjective(a3, LittleEndian(p.nonce, 16), b3, LittleEndian(q.nonce, 16));
    ConcatInjective(a2, LittleEndian(p.balance, 16), b2, LittleEndian(q.balance, 16));
    ConcatInjective(a1, WordBytes(p.programOwner), b1, WordBytes(q.programOwner));
    ConcatInjective(CommitmentPrefix(), p.accountId, CommitmentPrefix(), q.accountId);
    U128Injective(p.nonce, q.nonce);
    U128Injective(p.balance, q.balance);
    WordBytesInjective(p.programOwner, q.programOwner);
  }

  lemma NullifierBinds(p: Preimage, q: Preimage)
    requires p.NullifierInput? && q.NullifierInput? && Serialised(p) == Serialised(q)
    ensures p == q
  {
    var a, b := NullifierPrefix() + p.presenter, NullifierPrefix() + q.presenter;
    ConcatInjective(a + p.context, p.account, b + q.context, q.account);
    ConcatInjective(a, p.context, b, q.context);
    ConcatInjective(NullifierPrefix(), p.presenter, NullifierPrefix(), q.presenter);
  }

  lemma GateTagBinds(p: Preimage, q: Preimage)
    requires p.GateTagInput? && q.GateTagInput? && Serialised(p) == Serialised(q)
    ensures p == q
  {
    var a, b := GateTagPrefix() + p.nullifier, GateTagPrefix() + q.nullifier;
    ConcatInjective(a + LittleEndian(p.floor, 16), p.gateContext, b + LittleEndian(q.floor, 16), q.gateContext);
    ConcatInjective(a, LittleEndian(p.floor, 16), b, LittleEndian(q.floor, 16));
    ConcatInjective(GateTagPrefix(), p.nullifier, GateTagPrefix(), q.nullifier);
    U128Injective(p.floor, q.floor);
  }

  lemma ChallengeBinds(p: Preimage, q: Preimage)
    requires p.ChallengeInput? && q.ChallengeInput? && Serialised(p) == Serialised(q)
    ensures p == q
  {
    var a1, b1 := ChallengeTag() + p.challengeNonce, ChallengeTag() + q.challengeNonce;
    var a2, b2 := a1 + p.root, b1 + q.root;
    var a3, b3 := a2 + LittleEndian(p.threshold, 16), b2 + LittleEndian(q.threshold, 16);
    var a4, b4 := a3 + p.boundContext, b3 + q.boundContext;
    ConcatInjective(a4 + p.signer, p.boundNullifier, b4 + q.signer, q.boundNullifier);
    ConcatInjective(a4, p.signer, b4, q.signer);
    ConcatInjective(a3, p.boundContext, b3, q.boundContext);
    ConcatInjective(a2, LittleEndian(p.threshold, 16), b2, LittleEndian(q.threshold, 16));
    ConcatInjective(a1, p.root, b1, q.root);
    ConcatInjective(ChallengeTag(), p.challengeNonce, ChallengeTag(), q.challengeNonce);
    U128Injective(p.threshold, q.threshold);
  }

  lemma PdaBinds(p: Preimage, q: Preimage)
    requires p.PdaInput? && q.PdaInput? && Serialised(p) == Serialised(q)
    ensures p == q
  {
    var a, b := PdaPrefix() + WordBytes(p.program), PdaPrefix() + WordBytes(q.program);
    ConcatInjective(a, p.seed, b, q.seed);
    ConcatInjective(PdaPrefix(), WordBytes(p.program), PdaPrefix(), WordBytes(q.program));
    WordBytesInjective(p.program, q.program);
  }

  /** A hash collision between an input of one party and an input of another: two different values, both from the
      given finite sets, with the same digest. */
  ghost predicate Collision(h: HashFn, s: set<Preimage>, t: set<Preimage>) {
    exists p, q :: p in s && q in t && Collide(h, p, q)
  }

  predicate Collide(h: HashFn, p: Preimage, q: Preimage) {
    p != q && Hash(h, p) == Hash(h, q)
  }

  /** A collision of values is a collision of the byte strings they are hashed as. */
  lemma CollideOnBytes(sha: Sha, p: Preimage, q: Preimage)
    ensures Collide(OnBytes(sha), p, q)
      <==> Serialised(p) != Serialised(q) && sha(Serialised(p)) == sha(Serialised(q))
  {
    HashOnBytes(sha, p);
    HashOnBytes(sha, q);
    if Serialised(p) == Serialised(q) {
      SerialisedInjective(p, q);
    }
  }

  lemma EqualOrCollide(h: HashFn, p: Preimage, q: Preimage)
    requires Hash(h, p) == Hash(h, q)
    ensures p == q || Collide(h, p, q)
  {}
}
