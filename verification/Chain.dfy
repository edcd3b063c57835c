/** The deep gate as a protocol on the ledger: every way a run can go, and what a marker account says. */
module Chain {
  import opened ByteStrings
  import opened Preimages
  import opened Attestation
  import opened Merkle
  import opened Verifier
  import opened WitnessWords
  import opened Wrappers

  /** Accounts by id; an absent account is the default one. */
  type Ledger = map<Digest, Account>

  function DefaultOwner(): ProgramId { [0, 0, 0, 0, 0, 0, 0, 0] }

  function AccountAt(l: Ledger, id: Digest): Account {
    if id in l then l[id] else Account(DefaultOwner(), 0, 0, [])
  }

  function OwnerOf(l: Ledger, id: Digest): ProgramId {
    AccountAt(l, id).programOwner
  }

  datatype GateCall = GateCall(markerId: Digest, presenterId: Digest, presenterSigned: bool, args: GateArgs)

  /** A step of the chain: a transaction to the gate, or anything another program does. */
  datatype Step = Gate(call: GateCall) | Foreign(next: Ledger)

  /** The gate's own program id and the libraries are fixed for a chain. */
  datatype Deployment = Deployment(lib: Libraries, verifier: ProgramId)

  function Pda(d: Deployment, seed: Digest): Digest {
    Hash(d.lib.hash, PdaInput(d.verifier, seed))
  }

  /** A gate transaction is applied when the marker is the address of the seed and unclaimed, the presenter
      signed, the gate accepts the presenter's ledger state and the chained attestation succeeds. */
  predicate Accepts(d: Deployment, l: Ledger, c: GateCall) {
    && c.markerId == Pda(d, c.args.gateTag)
    && OwnerOf(l, c.markerId) == DefaultOwner()
    && c.presenterSigned
    && var r := GatedCheck(d.lib, c.presenterId, AccountAt(l, c.presenterId), c.args);
    && r.Ok?
    && AttestProgram(d.lib.hash, r.value).Ok?
  }

  function Apply(d: Deployment, l: Ledger, s: Step): Ledger {
    match s
    case Foreign(next) => next
    case Gate(c) =>
      if Accepts(d, l, c) then l[c.markerId := AccountAt(l, c.markerId).(programOwner := d.verifier)] else l
  }

  /** Other programs may do anything but take over an owned account or claim one in the gate's name. */
  ghost predicate Allowed(d: Deployment, l: Ledger, s: Step) {
    s.Foreign? ==> forall id: Digest ::
      OwnerOf(s.next, id) == OwnerOf(l, id) || (OwnerOf(l, id) == DefaultOwner() && OwnerOf(s.next, id) != d.verifier)
  }

  // ---- runs

  function After(d: Deployment, genesis: Ledger, run: seq<Step>): Ledger {
    if run == [] then genesis
    else Apply(d, After(d, genesis, run[..|run| - 1]), run[|run| - 1])
  }

  ghost predicate IsRun(d: Deployment, genesis: Ledger, run: seq<Step>) {
    && d.verifier != DefaultOwner()
    && (forall id: Digest :: OwnerOf(genesis, id) != d.verifier)
    && forall j {:trigger Allowed(d, After(d, genesis, run[..j]), run[j])} :: 0 <= j < |run| ==>
         Allowed(d, After(d, genesis, run[..j]), run[j])
  }

  predicate AcceptedAt(d: Deployment, genesis: Ledger, run: seq<Step>, j: nat)
    requires j < |run|
  {
    run[j].Gate? && Accepts(d, After(d, genesis, run[..j]), run[j].call)
  }

  lemma RunPrefix(d: Deployment, genesis: Ledger, run: seq<Step>, n: nat)
    requires IsRun(d, genesis, run) && n <= |run|
    ensures IsRun(d, genesis, run[..n])
    ensures forall j :: 0 <= j < n ==> run[..n][..j] == run[..j]
    ensures forall j :: 0 <= j < n ==> AcceptedAt(d, genesis, run[..n], j) == AcceptedAt(d, genesis, run, j)
  {
    assert forall j :: 0 <= j < n ==> run[..n][..j] == run[..j];
  }

  /** A rejected transaction changes nothing; an accepted one changes only the marker's owner. */
  lemma GateStepFrame(d: Deployment, l: Ledger, c: GateCall)
    ensures !Accepts(d, l, c) ==> Apply(d, l, Gate(c)) == l
    ensures Accepts(d, l, c) ==> forall id: Digest ::
      AccountAt(Apply(d, l, Gate(c)), id)
        == if id == c.markerId then AccountAt(l, id).(programOwner := d.verifier) else AccountAt(l, id)
  {}

  /** One step makes an account the verifier's only by an accepted claim of it, and never takes one away. */
  lemma OwnedAfterStep(d: Deployment, l: Ledger, s: Step, id: Digest)
    requires d.verifier != DefaultOwner() && Allowed(d, l, s)
    ensures OwnerOf(Apply(d, l, s), id) == d.verifier
      <==> OwnerOf(l, id) == d.verifier || (s.Gate? && Accepts(d, l, s.call) && s.call.markerId == id)
  {
    match s
    case Foreign(next) =>
    case Gate(c) => GateStepFrame(d, l, c);
  }

  /** The accounts that accepted transactions of a run have claimed. */
  function ClaimedIds(d: Deployment, genesis: Ledger, run: seq<Step>): set<Digest> {
    if run == [] then {}
    else
      var n := |run| - 1;
      ClaimedIds(d, genesis, run[..n]) + if AcceptedAt(d, genesis, run, n) then {run[n].call.markerId} else {}
  }

  lemma AcceptedInPrefix(d: Deployment, genesis: Ledger, run: seq<Step>, n: nat, j: nat)
    requires j < n <= |run|
    ensures AcceptedAt(d, genesis, run[..n], j) == AcceptedAt(d, genesis, run, j)
  {
    assert run[..n][..j] == run[..j];
  }

  lemma {:induction false} FindClaim(d: Deployment, genesis: Ledger, run: seq<Step>, id: Digest) returns (j: nat)
    requires id in ClaimedIds(d, genesis, run)
    ensures j < |run| && AcceptedAt(d, genesis, run, j) && run[j].call.markerId == id
    decreases |run|
  {
    var n := |run| - 1;
    if id in ClaimedIds(d, genesis, run[..n]) {
      j := FindClaim(d, genesis, run[..n], id);
      AcceptedInPrefix(d, genesis, run, n, j);
    } else {
      j := n;
    }
  }

  /** The verifier owns exactly the accounts that accepted transactions of the run claimed. */
  lemma {:induction false} OwnedIffClaimed(d: Deployment, genesis: Ledger, run: seq<Step>, id: Digest)
    requires IsRun(d, genesis, run)
    ensures OwnerOf(After(d, genesis, run), id) == d.verifier <==> id in ClaimedIds(d, genesis, run)
    decreases |run|
  {
    if run != [] {
      var n := |run| - 1;
      RunPrefix(d, genesis, run, n);
      OwnedIffClaimed(d, genesis, run[..n], id);
      OwnedAfterStep(d, After(d, genesis, run[..n]), run[n], id);
    }
  }

  // ---- what an accepted step has established

  /** The policy a call commits its marker to. */
  function PolicyInputs(d: Deployment, nullifier: Digest, floor: U128, context: Digest): set<Preimage> {
    {GateTagInput(nullifier, floor, context), PdaInput(d.verifier, GateTag(d.lib, nullifier, floor, context))}
  }

  function MarkerAddress(d: Deployment, nullifier: Digest, floor: U128, context: Digest): Digest {
    Pda(d, GateTag(d.lib, nullifier, floor, context))
  }

  /** A step that enforced exactly this policy: its witness decoded, the presenter key signed the arguments, and by
      `Verifier.Bound` the presenter is the attested account, is managed by the pinned program and held at least the
      floor when the step ran, and the nullifier is the witness's own. */
  ghost predicate Enforced(d: Deployment, l: Ledger, c: GateCall, nullifier: Digest, floor: U128, context: Digest) {
    && c.args.nullifier == nullifier && c.args.minimumThreshold == floor && c.args.expectedContextId == context
    && exists w: PrivateInputs ::
      && d.lib.decodeWitness(c.args.witnessWords) == Some(w) && ArgsSigned(d.lib, c.args)
      && Bound(d.lib, c.presenterId, AccountAt(l, c.presenterId), c.args, w)
  }

  function WitnessOf(d: Deployment, c: GateCall): Option<PrivateInputs> {
    d.lib.decodeWitness(c.args.witnessWords)
  }

  /** What an accepted call has established: the bindings of its witness, and a chained proof about that witness, the
      same nullifier and a balance, threshold and floor in order. */
  lemma AcceptedComposes(d: Deployment, l: Ledger, c: GateCall) returns (w: PrivateInputs)
    requires Accepts(d, l, c)
    ensures WitnessOf(d, c) == Some(w)
    ensures Bound(d.lib, c.presenterId, AccountAt(l, c.presenterId), c.args, w) && ArgsSigned(d.lib, c.args)
    ensures Attested(d.lib.hash, w, StatementOf(JournalOf(c.args))) == Ok(c.args.nullifier)
    ensures w.balance >= c.args.threshold >= c.args.minimumThreshold
  {
    var presenter := AccountAt(l, c.presenterId);
    GateNeedsWitness(d.lib, c.presenterId, presenter, c.args);
    w := d.lib.decodeWitness(c.args.witnessWords).value;
    GateAcceptsIff(d.lib, c.presenterId, presenter, c.args, w);
    ChainedAttests(d.lib.hash, ChainedCall(w, StatementOf(JournalOf(c.args))));
  }

  lemma ChainedAttests(h: HashFn, call: ChainedCall)
    requires AttestProgram(h, call).Ok?
    ensures Attested(h, call.wit, call.statement)
      == Ok(Nullifier(h, call.wit, call.statement.presenterPubkey, call.statement.contextId))
    ensures call.wit.balance >= call.statement.threshold
  {}

  lemma AcceptedEnforces(d: Deployment, l: Ledger, c: GateCall)
    requires Accepts(d, l, c)
    ensures Enforced(d, l, c, c.args.nullifier, c.args.minimumThreshold, c.args.expectedContextId)
    ensures c.markerId == MarkerAddress(d, c.args.nullifier, c.args.minimumThreshold, c.args.expectedContextId)
  {
    var w := AcceptedComposes(d, l, c);
  }

  /** The library decodes words that spell exactly one witness, in field order, to that witness. */
  ghost predicate DecodesFieldOrder(lib: Libraries) {
    forall words: seq<U32>, w: PrivateInputs ::
      ReadWitness(words) == Some((w, [])) ==> lib.decodeWitness(words) == Some(w)
  }

  /** From the serialiser to the ledger: a transaction with a witness's serialised words is decided about that very
      witness.  It is applied exactly when marker and signatures are in order, the arguments are bound to the witness
      and the witness satisfies the statement. */
  lemma SerialisedWitnessDecides(d: Deployment, l: Ledger, c: GateCall, w: PrivateInputs)
    requires DecodesFieldOrder(d.lib) && c.args.witnessWords == Words(w)
    ensures Accepts(d, l, c) <==>
      && c.markerId == Pda(d, c.args.gateTag) && OwnerOf(l, c.markerId) == [0, 0, 0, 0, 0, 0, 0, 0]
      && c.presenterSigned
      && Bound(d.lib, c.presenterId, AccountAt(l, c.presenterId), c.args, w)
      && ArgsSigned(d.lib, c.args)
      && Attested(d.lib.hash, w, StatementOf(JournalOf(c.args))).Ok? && c.args.nullifier != Zeros(32)
  {
    WitnessRead(w, []);
    assert Words(w) + [] == c.args.witnessWords;
    GateAcceptsIff(d.lib, c.presenterId, AccountAt(l, c.presenterId), c.args, w);
  }

  // ---- the main theorems about runs

  /** In every reachable state, a verifier-owned account at the address of a policy means that an earlier step of
      the run enforced exactly that policy; or else the policy's hash inputs collide with that step's. */
  lemma MarkerMeaning(d: Deployment, genesis: Ledger, run: seq<Step>, nullifier: Digest, floor: U128, context: Digest)
    returns (j: nat)
    requires IsRun(d, genesis, run)
    requires OwnerOf(After(d, genesis, run), MarkerAddress(d, nullifier, floor, context)) == d.verifier
    ensures j < |run| && AcceptedAt(d, genesis, run, j)
    ensures var c := run[j].call;
      || Enforced(d, After(d, genesis, run[..j]), c, nullifier, floor, context)
      || Collision(d.lib.hash, PolicyInputs(d, nullifier, floor, context),
                   PolicyInputs(d, c.args.nullifier, c.args.minimumThreshold, c.args.expectedContextId))
  {
    var address := MarkerAddress(d, nullifier, floor, context);
    OwnedIffClaimed(d, genesis, run, address);
    j := FindClaim(d, genesis, run, address);
    var a := run[j].call.args;
    AcceptedEnforces(d, After(d, genesis, run[..j]), run[j].call);
    SameAddress(d, nullifier, floor, context, a.nullifier, a.minimumThreshold, a.expectedContextId);
  }

  /** An address encodes its policy. */
  lemma SameAddress(d: Deployment, n: Digest, f: U128, c: Digest, n': Digest, f': U128, c': Digest)
    requires MarkerAddress(d, n, f, c) == MarkerAddress(d, n', f', c')
    ensures (n == n' && f == f' && c == c')
      || Collision(d.lib.hash, PolicyInputs(d, n, f, c), PolicyInputs(d, n', f', c'))
  {
    var t, t' := GateTag(d.lib, n, f, c), GateTag(d.lib, n', f', c');
    var s, s' := PolicyInputs(d, n, f, c), PolicyInputs(d, n', f', c');
    EqualOrCollide(d.lib.hash, PdaInput(d.verifier, t), PdaInput(d.verifier, t'));
    assert PdaInput(d.verifier, t) in s && PdaInput(d.verifier, t') in s';
    if t == t' {
      EqualOrCollide(d.lib.hash, GateTagInput(n, f, c), GateTagInput(n', f', c'));
      assert GateTagInput(n, f, c) in s && GateTagInput(n', f', c') in s';
    }
  }

  lemma AfterNext(d: Deployment, genesis: Ledger, run: seq<Step>, k: nat)
    requires k < |run|
    ensures After(d, genesis, run[..k + 1]) == Apply(d, After(d, genesis, run[..k]), run[k])
  {
    assert run[..k + 1][..k] == run[..k];
  }

  lemma OwnedStays(d: Deployment, genesis: Ledger, run: seq<Step>, i: nat, k: nat, id: Digest)
    requires IsRun(d, genesis, run) && i <= k <= |run|
    requires OwnerOf(After(d, genesis, run[..i]), id) == d.verifier
    ensures OwnerOf(After(d, genesis, run[..k]), id) == d.verifier
  {
    var j := i;
    while j < k
      invariant i <= j <= k && OwnerOf(After(d, genesis, run[..j]), id) == d.verifier
    {
      OwnedNext(d, genesis, run, j, id);
      j := j + 1;
    }
  }

  lemma OwnedNext(d: Deployment, genesis: Ledger, run: seq<Step>, k: nat, id: Digest)
    requires IsRun(d, genesis, run) && k < |run| && OwnerOf(After(d, genesis, run[..k]), id) == d.verifier
    ensures OwnerOf(After(d, genesis, run[..k + 1]), id) == d.verifier
  {
    var l := After(d, genesis, run[..k]);
    AfterNext(d, genesis, run, k);
    assert Allowed(d, l, run[k]);
    OwnedAfterStep(d, l, run[k], id);
  }

  /** Conversely, an enforced policy stays on record in every later state of the run. */
  lemma MarkerPersists(d: Deployment, genesis: Ledger, run: seq<Step>, j: nat, k: nat)
    requires IsRun(d, genesis, run) && j < k <= |run| && AcceptedAt(d, genesis, run, j)
    ensures var a := run[j].call.args;
      OwnerOf(After(d, genesis, run[..k]), MarkerAddress(d, a.nullifier, a.minimumThreshold, a.expectedContextId))
        == d.verifier
  {
    AcceptedEnforces(d, After(d, genesis, run[..j]), run[j].call);
    AfterNext(d, genesis, run, j);
    GateStepFrame(d, After(d, genesis, run[..j]), run[j].call);
    OwnedStays(d, genesis, run, j + 1, k, run[j].call.markerId);
  }

  /** Each nullifier, floor and context is accepted at most once in a run. */
  lemma AtMostOnce(d: Deployment, genesis: Ledger, run: seq<Step>, j: nat, k: nat)
    requires IsRun(d, genesis, run) && j < k < |run|
    requires AcceptedAt(d, genesis, run, j) && AcceptedAt(d, genesis, run, k)
    ensures var a, b := run[j].call.args, run[k].call.args;
      || a.nullifier != b.nullifier
      || a.minimumThreshold != b.minimumThreshold
      || a.expectedContextId != b.expectedContextId
  {
    MarkerPersists(d, genesis, run, j, k);
    AcceptedEnforces(d, After(d, genesis, run[..k]), run[k].call);
  }

  /** The commitment set and the ledger say the same about one account. */
  ghost predicate SetMatchesLedger(d: Deployment, l: Ledger, id: Digest, accounts: seq<Holding>) {
    forall a :: a in accounts && Hash(d.lib.hash, AccountIdInput(a.npk, a.identifier)) == id ==>
      a.balance == AccountAt(l, id).balance && a.programOwner == AccountAt(l, id).programOwner
  }

  /** When the statement's root is that of the accounts' own commitment set, and the set agrees with the ledger
      about the presenter, the balance proved in zero knowledge is the balance the gate read. */
  lemma ProofAndLedgerAgree(d: Deployment, l: Ledger, c: GateCall, t: Tree, depth: nat, accounts: seq<Holding>)
    returns (w: PrivateInputs)
    requires Accepts(d, l, c)
    requires Commits(d.lib.hash, t, depth, accounts) && c.args.merkleRoot == Root(d.lib.hash, t)
    requires SetMatchesLedger(d, l, c.presenterId, accounts)
    requires WitnessOf(d, c).Some? ==> CollisionFree(d.lib.hash, WitnessOf(d, c).value, t, accounts)
    ensures WitnessOf(d, c) == Some(w) && HoldingOf(w) in accounts
    ensures w.balance == AccountAt(l, c.presenterId).balance && w.programOwner == AuthenticatedTransfer()
  {
    w := AcceptedComposes(d, l, c);
    AttestedAccountIsReal(d.lib.hash, w, StatementOf(JournalOf(c.args)), t, depth, accounts);
    assert HoldingOf(w) in accounts;
  }
}
