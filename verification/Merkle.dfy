/** The commitment set as a perfect binary tree, and what a membership path proves about it. */
module Merkle {
  import opened ByteStrings
  import opened Positional
  import opened Preimages
  import opened Attestation
  import opened Wrappers

  datatype Tree = Leaf(value: Digest) | Node(left: Tree, right: Tree)

  predicate Perfect(t: Tree, d: nat) {
    match t
    case Leaf(_) => d == 0
    case Node(l, r) => d > 0 && Perfect(l, d - 1) && Perfect(r, d - 1)
  }

  /** The digest of a tree; leaf values are hashed once. */
  function Root(h: HashFn, t: Tree): Digest {
    match t
    case Leaf(v) => Hash(h, LeafInput(v))
    case Node(l, r) => Hash(h, NodeInput(Root(h, l), Root(h, r)))
  }

  /** The values in order. */
  function Leaves(t: Tree): seq<Digest> {
    match t
    case Leaf(v) => [v]
    case Node(l, r) => Leaves(l) + Leaves(r)
  }

  /** The side on which position `i` lies at the top of a tree of depth `d`. */
  function TopBit(i: nat, d: nat): nat
    requires d > 0
  {
    i / Pow(2, d - 1) % 2
  }

  /** The sibling hashes of position `i`, leaf to root. */
  function Path(h: HashFn, t: Tree, d: nat, i: nat): (p: seq<Digest>)
    requires Perfect(t, d)
    ensures |p| == d
  {
    match t
    case Leaf(_) => []
    case Node(l, r) =>
      if TopBit(i, d) == 0 then Path(h, l, d - 1, i) + [Root(h, r)] else Path(h, r, d - 1, i) + [Root(h, l)]
  }

  lemma {:induction false} LeafCount(t: Tree, d: nat)
    requires Perfect(t, d)
    ensures |Leaves(t)| == Pow(2, d)
  {
    match t
    case Leaf(_) =>
    case Node(l, r) =>
      LeafCount(l, d - 1);
      LeafCount(r, d - 1);
  }

  /** The value at an index; bits of the index above the depth are ignored. */
  function ValueAt(t: Tree, d: nat, i: nat): Digest
    requires Perfect(t, d)
  {
    LeafCount(t, d);
    Leaves(t)[i % Pow(2, d)]
  }

  lemma IndexSplit(i: nat, d: nat)
    requires d > 0
    ensures var p := Pow(2, d - 1); i % Pow(2, d) == p * TopBit(i, d) + i % p && i % p < p
  {
    var p := Pow(2, d - 1);
    var q, r := i / p, i % p;
    DivisionTheorem(i, p);
    DivisionTheorem(q, 2);
    Distribute(p, 2 * (q / 2), q % 2);
    MulAssociative(p, 2, q / 2);
    DivModUnique(2 * p, p * (q % 2) + r, q / 2);
  }

  lemma ValueAtSide(t: Tree, d: nat, i: nat)
    requires Perfect(t, d) && t.Node?
    ensures ValueAt(t, d, i) == ValueAt(if TopBit(i, d) == 0 then t.left else t.right, d - 1, i)
  {
    IndexSplit(i, d);
    LeafCount(t.left, d - 1);
    LeafCount(t.right, d - 1);
    LeafCount(t, d);
    var p := Pow(2, d - 1);
    HalfAt(Leaves(t.left), Leaves(t.right), p, TopBit(i, d), i % p);
  }

  lemma HalfAt<T>(l: seq<T>, r: seq<T>, p: nat, bit: nat, k: nat)
    requires |l| == p && |r| == p && bit < 2 && k < p
    ensures p * bit + k < |l + r| && (l + r)[p * bit + k] == (if bit == 0 then l else r)[k]
  {
    assert bit == 0 || bit == 1;
  }

  // ---- completeness

  /** Folding the sibling path of any position from its value gives the root. */
  lemma {:induction false} PathFoldsToRoot(h: HashFn, t: Tree, d: nat, i: nat)
    requires Perfect(t, d)
    ensures Fold(h, Hash(h, LeafInput(ValueAt(t, d, i))), i, Path(h, t, d, i)) == Root(h, t)
  {
    match t
    case Leaf(v) => assert i % Pow(2, 0) == 0;
    case Node(l, r) =>
      var side, other := if TopBit(i, d) == 0 then l else r, if TopBit(i, d) == 0 then r else l;
      PathFoldsToRoot(h, side, d - 1, i);
      ValueAtSide(t, d, i);
      var p := Path(h, t, d, i);
      assert p[..d - 1] == Path(h, side, d - 1, i) && p[d - 1] == Root(h, other);
      FoldTop(h, Hash(h, LeafInput(ValueAt(t, d, i))), i, p);
  }

  // ---- soundness

  /** Everything hashed to build a tree. */
  function TreeInputs(h: HashFn, t: Tree): set<Preimage> {
    match t
    case Leaf(v) => {LeafInput(v)}
    case Node(l, r) => {NodeInput(Root(h, l), Root(h, r))} + TreeInputs(h, l) + TreeInputs(h, r)
  }

  /** Everything hashed while folding a value along a path. */
  function FoldInputs(h: HashFn, v: Digest, i: nat, p: seq<Digest>): (s: set<Preimage>)
    ensures TopInput(h, v, i, p) in s
    decreases |p|
  {
    if p == [] then {LeafInput(v)} else {TopInput(h, v, i, p)} + FoldInputs(h, v, i, p[..|p| - 1])
  }

  /** The last thing a fold hashes. */
  function TopInput(h: HashFn, v: Digest, i: nat, p: seq<Digest>): Preimage {
    if p == [] then LeafInput(v)
    else
      var n := |p| - 1;
      Pair(Fold(h, Hash(h, LeafInput(v)), i, p[..n]), p[n], i / Pow(2, n) % 2)
  }

  lemma TopInputHashes(h: HashFn, v: Digest, i: nat, p: seq<Digest>)
    ensures Hash(h, TopInput(h, v, i, p)) == Fold(h, Hash(h, LeafInput(v)), i, p)
  {
    if p != [] {
      FoldTop(h, Hash(h, LeafInput(v)), i, p);
    }
  }

  function RootInput(h: HashFn, t: Tree): (p: Preimage)
    ensures Hash(h, p) == Root(h, t) && p in TreeInputs(h, t)
  {
    match t
    case Leaf(v) => LeafInput(v)
    case Node(l, r) => NodeInput(Root(h, l), Root(h, r))
  }

  /** Walk down from the root, on the side of the index bits, to the first level where path and tree disagree. */
  function Disagreement(h: HashFn, v: Digest, i: nat, p: seq<Digest>, t: Tree): (Preimage, Preimage)
    decreases t
  {
    var mine, theirs := TopInput(h, v, i, p), RootInput(h, t);
    if mine != theirs || p == [] || t.Leaf? then (mine, theirs)
    else
      var n := |p| - 1;
      Disagreement(h, v, i, p[..n], if i / Pow(2, n) % 2 == 0 then t.left else t.right)
  }

  /** The value and the path of the position the index names. */
  predicate Authentic(h: HashFn, v: Digest, i: nat, p: seq<Digest>, t: Tree, d: nat)
    requires Perfect(t, d)
  {
    |p| == d && v == ValueAt(t, d, i) && p == Path(h, t, d, i)
  }

  /** The walk down finds an input of the fold and an input of the tree that collide. */
  predicate Breaks(h: HashFn, v: Digest, i: nat, p: seq<Digest>, t: Tree) {
    var (x, y) := Disagreement(h, v, i, p, t);
    Collide(h, x, y) && x in FoldInputs(h, v, i, p) && y in TreeInputs(h, t)
  }

  /** A path that folds to the root is authentic, so it has the tree's depth; or else it breaks the hash,
      whether it is as long as the tree is deep, shorter or longer. */
  lemma {:induction false} FoldSound(h: HashFn, v: Digest, i: nat, p: seq<Digest>, t: Tree, d: nat)
    requires Perfect(t, d)
    requires Fold(h, Hash(h, LeafInput(v)), i, p) == Root(h, t)
    ensures Authentic(h, v, i, p, t, d) || Breaks(h, v, i, p, t)
    decreases t
  {
    TopInputHashes(h, v, i, p);
    EqualOrCollide(h, TopInput(h, v, i, p), RootInput(h, t));
    if TopInput(h, v, i, p) == RootInput(h, t) {
      if t.Leaf? {
        assert p == [] && i % Pow(2, 0) == 0;
      } else {
        SameTop(h, v, i, p, t);
        FoldSound(h, v, i, p[..|p| - 1], Side(t, p, i), d - 1);
        SoundUp(h, v, i, p, t, d);
      }
    }
  }

  /** The child on the side a path's top bit names. */
  function Side(t: Tree, p: seq<Digest>, i: nat): Tree
    requires t.Node? && p != []
  {
    if i / Pow(2, |p| - 1) % 2 == 0 then t.left else t.right
  }

  lemma SameTop(h: HashFn, v: Digest, i: nat, p: seq<Digest>, t: Tree)
    requires t.Node? && TopInput(h, v, i, p) == RootInput(h, t)
    ensures p != []
    ensures Fold(h, Hash(h, LeafInput(v)), i, p[..|p| - 1]) == Root(h, Side(t, p, i))
    ensures p[|p| - 1] == Root(h, if i / Pow(2, |p| - 1) % 2 == 0 then t.right else t.left)
  {}

  lemma SoundUp(h: HashFn, v: Digest, i: nat, p: seq<Digest>, t: Tree, d: nat)
    requires Perfect(t, d) && t.Node? && TopInput(h, v, i, p) == RootInput(h, t) && p != []
    requires var q, side := p[..|p| - 1], Side(t, p, i); Authentic(h, v, i, q, side, d - 1) || Breaks(h, v, i, q, side)
    ensures Authentic(h, v, i, p, t, d) || Breaks(h, v, i, p, t)
  {
    if Authentic(h, v, i, p[..|p| - 1], Side(t, p, i), d - 1) {
      AuthenticUp(h, v, i, p, t, d);
    } else {
      BreaksUp(h, v, i, p, t);
    }
  }

  lemma AuthenticUp(h: HashFn, v: Digest, i: nat, p: seq<Digest>, t: Tree, d: nat)
    requires Perfect(t, d) && t.Node? && TopInput(h, v, i, p) == RootInput(h, t) && p != []
    requires Authentic(h, v, i, p[..|p| - 1], Side(t, p, i), d - 1)
    ensures Authentic(h, v, i, p, t, d)
  {
    SameTop(h, v, i, p, t);
    ValueAtSide(t, d, i);
    assert p == p[..|p| - 1] + [p[|p| - 1]];
  }

  lemma BreaksUp(h: HashFn, v: Digest, i: nat, p: seq<Digest>, t: Tree)
    requires t.Node? && TopInput(h, v, i, p) == RootInput(h, t) && p != []
    requires Breaks(h, v, i, p[..|p| - 1], Side(t, p, i))
    ensures Breaks(h, v, i, p, t)
  {}

  // ---- attestations against a tree

  /** The Merkle inputs a guest hashes for a witness. */
  function AnchorInputs(h: HashFn, w: PrivateInputs): set<Preimage> {
    FoldInputs(h, Commitment(h, w), w.leafIndex, w.merklePath)
  }

  /** Against the root of a perfect tree, an attestation succeeds exactly when the witness commits to the value
      at its index, shows that position's own path and has the balance; collisions with the tree apart.  It fails
      as not anchored exactly when value or path are not the tree's, whatever the balance. */
  lemma AttestCharacterised(h: HashFn, w: PrivateInputs, s: AttestStatement, t: Tree, d: nat)
    requires Perfect(t, d) && s.merkleRoot == Root(h, t)
    requires !Collision(h, AnchorInputs(h, w), TreeInputs(h, t))
    ensures Attested(h, w, s).Ok? <==>
      && |w.merklePath| == d
      && Commitment(h, w) == ValueAt(t, d, w.leafIndex)
      && w.merklePath == Path(h, t, d, w.leafIndex)
      && w.balance >= s.threshold
    ensures Attested(h, w, s) == Err(NotAnchored) <==> !Authentic(h, Commitment(h, w), w.leafIndex, w.merklePath, t, d)
    ensures Attested(h, w, s).Ok? ==>
      Attested(h, w, s).value
        == Hash(h, NullifierInput(s.presenterPubkey, s.contextId, Hash(h, AccountIdInput(w.npk, w.identifier))))
  {
    if Attested(h, w, s) != Err(NotAnchored) {
      FoldSound(h, Commitment(h, w), w.leafIndex, w.merklePath, t, d);
    }
    if Commitment(h, w) == ValueAt(t, d, w.leafIndex) && w.merklePath == Path(h, t, d, w.leafIndex) {
      PathFoldsToRoot(h, t, d, w.leafIndex);
    }
  }

  // ---- what the commitments stand for

  /** A private account on chain. */
  datatype Holding = Holding(
    npk: Digest, identifier: U128, programOwner: ProgramId, balance: U128, nonce: U128, dataHash: Digest)

  function HoldingOf(w: PrivateInputs): Holding {
    Holding(w.npk, w.identifier, w.programOwner, w.balance, w.nonce, w.dataHash)
  }

  function HoldingInputs(h: HashFn, a: Holding): set<Preimage> {
    {AccountIdInput(a.npk, a.identifier), HoldingCommitmentInput(h, a)}
  }

  function HoldingCommitmentInput(h: HashFn, a: Holding): Preimage {
    CommitmentInput(Hash(h, AccountIdInput(a.npk, a.identifier)), a.programOwner, a.balance, a.nonce, a.dataHash)
  }

  /** The commitment set of a list of accounts. */
  ghost predicate Commits(h: HashFn, t: Tree, d: nat, accounts: seq<Holding>) {
    && Perfect(t, d) && |Leaves(t)| == |accounts|
    && forall k :: 0 <= k < |accounts| ==> Leaves(t)[k] == Hash(h, HoldingCommitmentInput(h, accounts[k]))
  }

  /** Nothing hashed for the witness collides with anything hashed for the tree or its accounts. */
  ghost predicate CollisionFree(h: HashFn, w: PrivateInputs, t: Tree, accounts: seq<Holding>) {
    && !Collision(h, AnchorInputs(h, w), TreeInputs(h, t))
    && forall a :: a in accounts ==> !Collision(h, HoldingInputs(h, HoldingOf(w)), HoldingInputs(h, a))
  }

  /** An accepted attestation against the accounts' own root shows a real account: the one at the witness's
      index has every field the witness claims, and at least the attested balance. */
  lemma AttestedAccountIsReal(h: HashFn, w: PrivateInputs, s: AttestStatement, t: Tree, d: nat, accounts: seq<Holding>)
    requires Commits(h, t, d, accounts) && s.merkleRoot == Root(h, t)
    requires Attested(h, w, s).Ok?
    requires CollisionFree(h, w, t, accounts)
    ensures var k := w.leafIndex % Pow(2, d);
      k < |accounts| && accounts[k] == HoldingOf(w) && accounts[k].balance >= s.threshold
  {
    AttestCharacterised(h, w, s, t, d);
    LeafCount(t, d);
    var a := accounts[w.leafIndex % Pow(2, d)];
    SameCommitment(h, HoldingOf(w), a);
  }

  lemma SameCommitment(h: HashFn, a: Holding, b: Holding)
    requires Hash(h, HoldingCommitmentInput(h, a)) == Hash(h, HoldingCommitmentInput(h, b))
    requires !Collision(h, HoldingInputs(h, a), HoldingInputs(h, b))
    ensures a == b
  {
    var p, q := HoldingCommitmentInput(h, a), HoldingCommitmentInput(h, b);
    EqualOrCollide(h, p, q);
    assert p in HoldingInputs(h, a) && q in HoldingInputs(h, b);
    EqualOrCollide(h, AccountIdInput(a.npk, a.identifier), AccountIdInput(b.npk, b.identifier));
  }
}
