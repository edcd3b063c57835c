/** What a consumer's used nullifiers say about accounts: one per presenter key, not one per account. */
module Accounts {
  import opened ByteStrings
  import opened Preimages
  import opened Attestation
  import opened Verifier
  import opened Wrappers

  /** An account, as an attestation identifies it. */
  datatype Holder = Holder(npk: Digest, identifier: U128)

  /** A journal that a consumer's checks accept, with the witness its proof was made from. */
  datatype Presentation = Presentation(journal: PublicJournal, wit: PrivateInputs)

  /** The requests of a run in order, those that fail the checks as `None`. */
  type History = seq<Option<Presentation>>

  function HolderOf(w: PrivateInputs): Holder {
    Holder(w.npk, w.identifier)
  }

  /** What the proof behind a journal establishes of its nullifier. */
  predicate Backed(h: HashFn, p: Presentation, context: Digest) {
    && p.journal.contextId == context
    && p.journal.nullifier == Nullifier(h, p.wit, p.journal.presenterPubkey, context)
  }

  predicate AllBacked(h: HashFn, history: History, context: Digest) {
    forall i :: 0 <= i < |history| && history[i].Some? ==> Backed(h, history[i].value, context)
  }

  /** What was hashed for the nullifiers of a run. */
  function NullifierInputs(h: HashFn, history: History): set<Preimage> {
    (set i | 0 <= i < |history| && history[i].Some? :: InputOf(h, history[i].value))
    + set i | 0 <= i < |history| && history[i].Some? :: IdInputOf(history[i].value)
  }

  function InputOf(h: HashFn, p: Presentation): Preimage {
    NullifierInput(p.journal.presenterPubkey, p.journal.contextId, AccountId(h, p.wit))
  }

  function IdInputOf(p: Presentation): Preimage {
    AccountIdInput(p.wit.npk, p.wit.identifier)
  }

  /** No two of them collide. */
  ghost predicate Distinguishes(h: HashFn, history: History) {
    !Collision(h, NullifierInputs(h, history), NullifierInputs(h, history))
  }

  predicate By(history: History, i: nat, a: Holder) {
    i < |history| && history[i].Some? && HolderOf(history[i].value.wit) == a
  }

  function Used(history: History): set<Digest> {
    set i | 0 <= i < |history| && history[i].Some? :: history[i].value.journal.nullifier
  }

  function NullifiersOf(history: History, a: Holder): set<Digest> {
    set i | 0 <= i < |history| && By(history, i, a) :: history[i].value.journal.nullifier
  }

  function KeysOf(history: History, a: Holder): set<PublicKey> {
    set i | 0 <= i < |history| && By(history, i, a) :: history[i].value.journal.presenterPubkey
  }

  /** Two accepted journals of a run share a nullifier exactly when they share account and key. */
  lemma SameNullifier(h: HashFn, history: History, context: Digest, i: nat, j: nat)
    requires AllBacked(h, history, context) && Distinguishes(h, history)
    requires i < |history| && j < |history| && history[i].Some? && history[j].Some?
    ensures var p, q := history[i].value, history[j].value;
      p.journal.nullifier == q.journal.nullifier <==>
        HolderOf(p.wit) == HolderOf(q.wit) && p.journal.presenterPubkey == q.journal.presenterPubkey
  {
    var p, q := history[i].value, history[j].value;
    assert Backed(h, p, context) && Backed(h, q, context);
    assert {InputOf(h, p), InputOf(h, q), IdInputOf(p), IdInputOf(q)} <= NullifierInputs(h, history);
    NullifierIdentifies(h, p.wit, p.journal.presenterPubkey, context, q.wit, q.journal.presenterPubkey, context);
  }

  /** An account that presents again has its nullifier already used just when it has used the key before. */
  lemma UsedIffKeyUsed(h: HashFn, history: History, context: Digest, p: Presentation)
    requires AllBacked(h, history + [Some(p)], context) && Distinguishes(h, history + [Some(p)])
    ensures p.journal.nullifier in Used(history) <==> p.journal.presenterPubkey in KeysOf(history, HolderOf(p.wit))
  {
    var all := history + [Some(p)];
    forall i | 0 <= i < |history| && history[i].Some?
      ensures history[i].value.journal.nullifier == p.journal.nullifier
        <==> By(history, i, HolderOf(p.wit)) && history[i].value.journal.presenterPubkey == p.journal.presenterPubkey
    {
      assert all[i] == history[i];
      SameNullifier(h, all, context, i, |history|);
    }
  }

  /** An account has exactly one used nullifier per key it presented with. */
  lemma OneNullifierPerKey(h: HashFn, history: History, context: Digest, a: Holder)
    requires AllBacked(h, history, context) && Distinguishes(h, history)
    ensures NullifiersOf(history, a) <= Used(history)
    ensures |NullifiersOf(history, a)| == |KeysOf(history, a)|
  {
    var under := (k: PublicKey) => NullifierUnder(h, a, k, context);
    var ks, ns := KeysOf(history, a), NullifiersOf(history, a);
    forall i | 0 <= i < |history| && By(history, i, a)
      ensures under(history[i].value.journal.presenterPubkey) == history[i].value.journal.nullifier
    {
      assert Backed(h, history[i].value, context);
    }
    forall k, k' | k in ks && k' in ks && under(k) == under(k') ensures k == k' {
      var i: nat :| i < |history| && By(history, i, a) && history[i].value.journal.presenterPubkey == k;
      var j: nat :| j < |history| && By(history, j, a) && history[j].value.journal.presenterPubkey == k';
      SameNullifier(h, history, context, i, j);
    }
    InjectiveImage(ks, ns, under);
  }

  function NullifierUnder(h: HashFn, a: Holder, key: PublicKey, context: Digest): Digest {
    Hash(h, NullifierInput(key, context, Hash(h, AccountIdInput(a.npk, a.identifier))))
  }

  lemma {:induction false} InjectiveImage<K(!new), V(!new)>(ks: set<K>, vs: set<V>, f: K -> V)
    requires vs == set k | k in ks :: f(k)
    requires forall k, k' :: k in ks && k' in ks && f(k) == f(k') ==> k == k'
    ensures |vs| == |ks|
    decreases |ks|
  {
    if k :| k in ks {
      InjectiveImage(ks - {k}, vs - {f(k)}, f);
    }
  }

  /** Different accounts never share a used nullifier. */
  lemma HoldersApart(h: HashFn, history: History, context: Digest, a: Holder, b: Holder)
    requires AllBacked(h, history, context) && Distinguishes(h, history) && a != b
    ensures NullifiersOf(history, a) !! NullifiersOf(history, b)
  {
    forall n | n in NullifiersOf(history, a) ensures n !in NullifiersOf(history, b) {
      var i: nat :| i < |history| && By(history, i, a) && history[i].value.journal.nullifier == n;
      if n in NullifiersOf(history, b) {
        var j: nat :| j < |history| && By(history, j, b) && history[j].value.journal.nullifier == n;
        SameNullifier(h, history, context, i, j);
      }
    }
  }

  ghost predicate OneKeyEach(history: History) {
    forall i: nat, j: nat, a: Holder :: By(history, i, a) && By(history, j, a) ==>
      history[i].value.journal.presenterPubkey == history[j].value.journal.presenterPubkey
  }

  ghost predicate OneNullifierEach(history: History) {
    forall a: Holder :: |NullifiersOf(history, a)| <= 1
  }

  /** No account has two used nullifiers exactly when every account keeps to one key. */
  lemma OneEachIffOneKey(h: HashFn, history: History, context: Digest)
    requires AllBacked(h, history, context) && Distinguishes(h, history)
    ensures OneNullifierEach(history) <==> OneKeyEach(history)
  {
    if OneNullifierEach(history) {
      forall i: nat, j: nat, a: Holder | By(history, i, a) && By(history, j, a)
        ensures history[i].value.journal.presenterPubkey == history[j].value.journal.presenterPubkey
      {
        AtMostOne(NullifiersOf(history, a), history[i].value.journal.nullifier, history[j].value.journal.nullifier);
        SameNullifier(h, history, context, i, j);
      }
    }
    if OneKeyEach(history) {
      forall a: Holder ensures |NullifiersOf(history, a)| <= 1 {
        OneNullifierPerKey(h, history, context, a);
        AllSame(KeysOf(history, a));
      }
    }
  }

  /** The same of the used nullifiers. */
  lemma UsedPerKey(h: HashFn, history: History, context: Digest)
    requires AllBacked(h, history, context) && Distinguishes(h, history)
    ensures forall a: Holder :: |Used(history) * NullifiersOf(history, a)| == |KeysOf(history, a)|
    ensures (forall a: Holder :: |Used(history) * NullifiersOf(history, a)| <= 1) <==> OneKeyEach(history)
  {
    forall a: Holder
      ensures Used(history) * NullifiersOf(history, a) == NullifiersOf(history, a)
      ensures |NullifiersOf(history, a)| == |KeysOf(history, a)|
    {
      OneNullifierPerKey(h, history, context, a);
    }
    OneEachIffOneKey(h, history, context);
  }

  lemma AtMostOne<T>(s: set<T>, x: T, y: T)
    requires |s| <= 1 && x in s && y in s
    ensures x == y
  {
    assert |s - {x}| == |s| - 1;
    assert s - {x} == {};
  }

  lemma AllSame<T(!new)>(s: set<T>)
    requires forall x, y :: x in s && y in s ==> x == y
    ensures |s| <= 1
  {
    if x :| x in s {
      assert s == {x};
    }
  }

  // ---- an account that presents with two keys

  /** A hash that tells keys apart, and the account of all zeros with a balance of one. */
  function ExampleHash(): HashFn {
    (p: Preimage) => if p.NullifierInput? then p.presenter[..32] else Zeros(32)
  }

  function ExampleWitness(): PrivateInputs {
    PrivateInputs(Zeros(32), 0, AuthenticatedTransfer(), 1, 0, Zeros(32), [], 0)
  }

  /** Its attestation under the key of `b`s. */
  function ExampleJournal(context: Digest, b: Byte): PublicJournal {
    PublicJournal(Zeros(32), 1, context, seq(33, _ => b), seq(32, _ => b))
  }

  /** Every signature and receipt verifies; the empty receipt is for one key, any other for a second. */
  function ExampleLibraries(): Libraries {
    Libraries(ExampleHash(), (_: Bytes) => Zeros(32), (_: PublicKey) => true, (_: Bytes) => true,
              (_: PublicKey, _: Digest, _: Bytes) => true, (_: Bytes) => true,
              (receipt: Bytes) => Some(ExampleJournal(Zeros(32), if receipt == [] then 2 else 3)),
              (_: seq<U32>) => None)
  }

  lemma ExampleAttests(context: Digest, b: Byte)
    ensures Attested(ExampleHash(), ExampleWitness(), StatementOf(ExampleJournal(context, b)))
      == Ok(ExampleJournal(context, b).nullifier)
    ensures b != 3 ==> ExampleJournal(context, b).nullifier != ExampleJournal(context, 3).nullifier
    ensures b != 3 ==> ExampleJournal(context, b).presenterPubkey != ExampleJournal(context, 3).presenterPubkey
  {
    var key: PublicKey := seq(33, _ => b);
    assert key[..32] == seq(32, _ => b);
    assert ExampleJournal(context, b).nullifier[0] == b && ExampleJournal(context, b).presenterPubkey[0] == b;
    assert ExampleJournal(context, 3).nullifier[0] == 3 && ExampleJournal(context, 3).presenterPubkey[0] == 3;
  }

  /** No collision is behind the example: its two journals are proved, and what they hash is told apart. */
  lemma ExampleGenuine(context: Digest)
    ensures var history := [Some(Presentation(ExampleJournal(context, 2), ExampleWitness())),
                            Some(Presentation(ExampleJournal(context, 3), ExampleWitness()))];
      AllBacked(ExampleHash(), history, context) && Distinguishes(ExampleHash(), history)
  {
    var h, w := ExampleHash(), ExampleWitness();
    var a, b := Presentation(ExampleJournal(context, 2), w), Presentation(ExampleJournal(context, 3), w);
    var history := [Some(a), Some(b)];
    ExampleAttests(context, 2);
    ExampleAttests(context, 3);
    ExampleDigests(context, 2);
    ExampleDigests(context, 3);
    assert NullifierInputs(h, history) == {InputOf(h, a), InputOf(h, b), IdInputOf(a)} by {
      assert history[0] == Some(a) && history[1] == Some(b);
    }
  }

  /** The first byte of what each hashes to. */
  lemma ExampleDigests(context: Digest, b: Byte)
    ensures var h, p := ExampleHash(), Presentation(ExampleJournal(context, b), ExampleWitness());
      Hash(h, InputOf(h, p))[0] == b && Hash(h, IdInputOf(p))[0] == 0
  {}
}
