/** The chat gate: a presenter key joins a group once per nullifier. */
module ChatGate {
  import opened ByteStrings
  import opened Sequences
  import opened Attestation
  import opened Verifier
  import opened FirstWins
  import opened Accounts
  import opened Wrappers

  function GroupContext(lib: Libraries, groupId: Bytes): Digest {
    lib.sha(Ascii("/lp-0005/integ/chat-gate-v1/") + groupId)
  }

  /** Two groups share a context only if their ids are equal, or else the hashed group names collide. */
  lemma GroupContextBinds(lib: Libraries, g: Bytes, g': Bytes)
    requires GroupContext(lib, g) == GroupContext(lib, g') && g != g'
    ensures var p := Ascii("/lp-0005/integ/chat-gate-v1/");
      p + g != p + g' && lib.sha(p + g) == lib.sha(p + g')
  {
    var p := Ascii("/lp-0005/integ/chat-gate-v1/");
    if p + g == p + g' {
      ConcatInjective(p, g, p, g');
    }
  }

  datatype AdmissionError = Rejected(e: VerifyError) | NullifierReused

  datatype Request = Request(receipt: Bytes, presenterNonce: Digest, der: Bytes)

  datatype Roster = Roster(members: set<PublicKey>, usedNullifiers: set<Digest>)

  /** The group's fixed settings. */
  datatype Group = Group(groupId: Bytes, minimumStake: U128)

  function Verified(lib: Libraries, g: Group, q: Request): Result<PublicJournal, VerifyError> {
    VerifyCredential(lib, q.receipt, q.presenterNonce, q.der, GroupContext(lib, g.groupId), g.minimumStake)
  }

  function Admitted(lib: Libraries, g: Group, r: Roster, q: Request): (Roster, Result<PublicJournal, AdmissionError>) {
    match Verified(lib, g, q)
    case Err(e) => (r, Err(Rejected(e)))
    case Ok(j) =>
      if j.nullifier in r.usedNullifiers then (r, Err(NullifierReused))
      else (Roster(r.members + {j.presenterPubkey}, r.usedNullifiers + {j.nullifier}), Ok(j))
  }

  class GroupRoster {
    const groupId: Bytes
    const minimumStake: U128
    var members: set<PublicKey>
    var usedNullifiers: set<Digest>

    constructor (groupId: Bytes, minimumStake: U128)
      ensures Settings() == Group(groupId, minimumStake) && Contents() == Roster({}, {})
    {
      this.groupId, this.minimumStake := groupId, minimumStake;
      members, usedNullifiers := {}, {};
    }

    ghost function Settings(): Group {
      Group(groupId, minimumStake)
    }

    ghost function Contents(): Roster
      reads this
    {
      Roster(members, usedNullifiers)
    }

    method Admit(lib: Libraries, q: Request) returns (r: Result<PublicJournal, AdmissionError>)
      modifies this
      ensures (Contents(), r) == Admitted(lib, Settings(), old(Contents()), q)
    {
      var expectedCtx := GroupContext(lib, groupId);
      var v := VerifyCredential(lib, q.receipt, q.presenterNonce, q.der, expectedCtx, minimumStake);
      if v.Err? {
        return Err(Rejected(v.error));
      }
      if v.value.nullifier in usedNullifiers {
        return Err(NullifierReused);
      }
      usedNullifiers := usedNullifiers + {v.value.nullifier};
      members := members + {v.value.presenterPubkey};
      r := Ok(v.value);
    }
  }

  // ---- runs

  function Run(lib: Libraries, g: Group, requests: seq<Request>): Roster {
    if requests == [] then Roster({}, {})
    else Admitted(lib, g, Run(lib, g, requests[..|requests| - 1]), requests[|requests| - 1]).0
  }

  /** A request is valid with a journal when its receipt verifies to that journal, and the journal is for this group,
      proves at least the stake and is signed by its presenter for the request's nonce. */
  predicate Valid(lib: Libraries, g: Group, q: Request, j: PublicJournal) {
    && lib.receiptVerifies(q.receipt) && lib.decodeJournal(q.receipt) == Some(j)
    && j.contextId == lib.sha(Ascii("/lp-0005/integ/chat-gate-v1/") + g.groupId)
    && j.threshold >= g.minimumStake
    && SignedBy(lib, j, q.presenterNonce, q.der)
  }

  /** The verifier, as this consumer calls it, accepts the valid requests and no others. */
  lemma VerifiedIffValid(lib: Libraries, g: Group, q: Request, j: PublicJournal)
    ensures Verified(lib, g, q) == Ok(j) <==> Valid(lib, g, q, j)
  {
    CredentialIff(lib, q.receipt, q.presenterNonce, q.der, GroupContext(lib, g.groupId), g.minimumStake, j);
  }

  /** A valid request counts for its nullifier. */
  function Event(lib: Libraries, g: Group, q: Request): Option<(Digest, PublicKey)> {
    match lib.decodeJournal(q.receipt)
    case Some(j) => if Valid(lib, g, q, j) then Some((j.nullifier, j.presenterPubkey)) else None
    case None => None
  }

  lemma EventIsVerified(lib: Libraries, g: Group, q: Request)
    ensures Verified(lib, g, q).Ok? <==> Event(lib, g, q).Some?
    ensures Verified(lib, g, q).Ok? ==>
      var j := Verified(lib, g, q).value;
      Event(lib, g, q) == Some((j.nullifier, j.presenterPubkey)) && Valid(lib, g, q, j)
  {
    if Verified(lib, g, q).Ok? {
      VerifiedIffValid(lib, g, q, Verified(lib, g, q).value);
    }
    if Event(lib, g, q).Some? {
      VerifiedIffValid(lib, g, q, lib.decodeJournal(q.receipt).value);
    }
  }

  function Events(lib: Libraries, g: Group, requests: seq<Request>): (es: seq<Option<(Digest, PublicKey)>>)
    ensures |es| == |requests| && forall i :: 0 <= i < |requests| ==> es[i] == Event(lib, g, requests[i])
  {
    Mapped(EventOf(lib, g), requests)
  }

  function EventOf(lib: Libraries, g: Group): Request -> Option<(Digest, PublicKey)> {
    q => Event(lib, g, q)
  }

  /** The roster of any run: the keys of the first verified request of each nullifier. */
  lemma {:induction false} RosterOfRun(lib: Libraries, g: Group, requests: seq<Request>)
    ensures var m := Outcome(Events(lib, g, requests));
      Run(lib, g, requests) == Roster(m.Values, m.Keys)
  {
    if requests != [] {
      var n := |requests| - 1;
      RosterOfRun(lib, g, requests[..n]);
      assert Events(lib, g, requests)[..n] == Events(lib, g, requests[..n]);
      var m, e := Outcome(Events(lib, g, requests[..n])), Event(lib, g, requests[n]);
      EventIsVerified(lib, g, requests[n]);
      if e.Some? && e.value.0 !in m {
        ValuesGrow(m, e.value.0, e.value.1);
      }
    }
  }

  lemma ValuesGrow<K, V>(m: map<K, V>, k: K, v: V)
    requires k !in m
    ensures m[k := v].Values == m.Values + {v} && m[k := v].Keys == m.Keys + {k}
  {
    var m' := m[k := v];
    forall x ensures x in m'.Values <==> x in m.Values + {v} {
      if x in m.Values {
        var i :| i in m && m[i] == x;
        assert m'[i] == x;
      }
      if x == v {
        assert m'[k] == x;
      }
    }
  }

  lemma {:induction false} FewerValues<K, V>(m: map<K, V>)
    ensures |m.Values| <= |m.Keys|
    decreases |m.Keys|
  {
    if k :| k in m.Keys {
      var rest := m - {k};
      FewerValues(rest);
      assert rest.Keys == m.Keys - {k};
      assert m == rest[k := m[k]];
      ValuesGrow(rest, k, m[k]);
    } else {
      assert m.Values == {};
    }
  }

  /** Every member was admitted by a valid request, one whose receipt verified to a signed journal for this group with
      at least the stake, and that journal's nullifier is now used. */
  lemma MemberHasNullifier(lib: Libraries, g: Group, requests: seq<Request>, key: PublicKey)
    returns (q: Request, j: PublicJournal)
    requires key in Run(lib, g, requests).members
    ensures q in requests && Valid(lib, g, q, j) && j.presenterPubkey == key
    ensures j.nullifier in Run(lib, g, requests).usedNullifiers
  {
    var es := Events(lib, g, requests);
    RosterOfRun(lib, g, requests);
    var nullifier :| nullifier in Outcome(es) && Outcome(es)[nullifier] == key;
    var i := EarliestExists(es, nullifier);
    q := requests[i];
    j := lib.decodeJournal(q.receipt).value;
  }

  /** What the next call does after any run: it admits just when the request is valid and no valid request before had
      its nullifier; it fails for the verifier's reason or as a reuse, and a failed call changes nothing. */
  lemma AdmitAfterRun(lib: Libraries, g: Group, requests: seq<Request>, q: Request)
    ensures var (r', result) := Admitted(lib, g, Run(lib, g, requests), q);
      && (forall j :: result == Ok(j) <==> Valid(lib, g, q, j) && !Named(Events(lib, g, requests), j.nullifier))
      && (result == Err(NullifierReused) <==>
            Event(lib, g, q).Some? && Named(Events(lib, g, requests), Event(lib, g, q).value.0))
      && (result.Err? && result.error.Rejected? <==> Event(lib, g, q).None?)
      && (result.Err? ==> r' == Run(lib, g, requests))
  {
    RosterOfRun(lib, g, requests);
    EventIsVerified(lib, g, q);
    if Event(lib, g, q).Some? {
      OutcomeNamed(Events(lib, g, requests), Event(lib, g, q).value.0);
    }
  }

  /** There are never more members than used nullifiers. */
  lemma FewerMembers(lib: Libraries, g: Group, requests: seq<Request>)
    ensures |Run(lib, g, requests).members| <= |Run(lib, g, requests).usedNullifiers|
  {
    RosterOfRun(lib, g, requests);
    FewerValues(Outcome(Events(lib, g, requests)));
  }

  // ---- order

  ghost predicate OrderIrrelevant(lib: Libraries, g: Group, requests: seq<Request>) {
    forall other :: multiset(other) == multiset(requests) ==> Run(lib, g, other) == Run(lib, g, requests)
  }

  /** The roster is the same in every order of the requests exactly when every key that verifies does so under some
      nullifier that verifies for that key alone. */
  lemma OrderIrrelevantIff(lib: Libraries, g: Group, requests: seq<Request>)
    ensures OrderIrrelevant(lib, g, requests) <==> Backing(EventOf(lib, g), requests)
  {
    var f := EventOf(lib, g);
    ValuesStableIff(f, requests);
    if ValuesStable(f, requests) {
      forall other | multiset(other) == multiset(requests) ensures Run(lib, g, other) == Run(lib, g, requests) {
        RosterPermutes(lib, g, other, requests);
      }
    }
    if OrderIrrelevant(lib, g, requests) {
      forall other | multiset(other) == multiset(requests)
        ensures Outcome(Mapped(f, other)).Values == Outcome(Mapped(f, requests)).Values
      {
        assert Run(lib, g, other) == Run(lib, g, requests);
        RosterOfRun(lib, g, other);
        RosterOfRun(lib, g, requests);
      }
    }
  }

  lemma RosterPermutes(lib: Libraries, g: Group, a: seq<Request>, b: seq<Request>)
    requires multiset(a) == multiset(b)
    requires Outcome(Events(lib, g, a)).Values == Outcome(Events(lib, g, b)).Values
    ensures Run(lib, g, a) == Run(lib, g, b)
  {
    MappedPermutes(EventOf(lib, g), a, b);
    KeysPermute(Events(lib, g, a), Events(lib, g, b));
    RosterOfRun(lib, g, a);
    RosterOfRun(lib, g, b);
  }

  // ---- accounts

  /** The journals that verify, each with the witness its receipt was made from. */
  function Accepted(lib: Libraries, g: Group, requests: seq<Request>, ws: seq<PrivateInputs>): (r: History)
    requires |ws| == |requests|
    ensures |r| == |requests|
  {
    seq(|requests|, i requires 0 <= i < |requests| =>
      match Verified(lib, g, requests[i])
      case Ok(j) => Some(Presentation(j, ws[i]))
      case Err(_) => None)
  }

  /** The journals are proved and no two of the values hashed for them collide. */
  ghost predicate Genuine(lib: Libraries, g: Group, requests: seq<Request>, ws: seq<PrivateInputs>)
    requires |ws| == |requests|
  {
    var history := Accepted(lib, g, requests, ws);
    AllBacked(lib.hash, history, GroupContext(lib, g.groupId)) && Distinguishes(lib.hash, history)
  }

  /** After any run an account's next request is admitted exactly when it verifies and no verified request of the same
      account was under the same presenter key: with a second key the account is a second member. */
  lemma AdmittedIffNewKey(lib: Libraries, g: Group, requests: seq<Request>, ws: seq<PrivateInputs>,
                          q: Request, w: PrivateInputs)
    requires |ws| == |requests| && Genuine(lib, g, requests + [q], ws + [w])
    ensures Admitted(lib, g, Run(lib, g, requests), q).1.Ok? <==>
      && Verified(lib, g, q).Ok?
      && Verified(lib, g, q).value.presenterPubkey !in KeysOf(Accepted(lib, g, requests, ws), HolderOf(w))
  {
    AdmitAfterRun(lib, g, requests, q);
    if Verified(lib, g, q).Ok? {
      var history, p := Accepted(lib, g, requests, ws), Presentation(Verified(lib, g, q).value, w);
      assert Accepted(lib, g, requests + [q], ws + [w]) == history + [Some(p)];
      NamedIffUsed(lib, g, requests, ws, p.journal.nullifier);
      UsedIffKeyUsed(lib.hash, history, GroupContext(lib, g.groupId), p);
    }
  }

  lemma NamedIffUsed(lib: Libraries, g: Group, requests: seq<Request>, ws: seq<PrivateInputs>, n: Digest)
    requires |ws| == |requests|
    ensures Named(Events(lib, g, requests), n) <==> n in Used(Accepted(lib, g, requests, ws))
  {
    var es, history := Events(lib, g, requests), Accepted(lib, g, requests, ws);
    if Named(es, n) {
      var i: nat :| Names(es, i, n);
      assert history[i].Some? && history[i].value.journal.nullifier == n;
    }
    if n in Used(history) {
      var i: nat :| i < |history| && history[i].Some? && history[i].value.journal.nullifier == n;
      assert Names(es, i, n);
    }
  }

  /** An account uses up as many nullifiers as it has keys in verified requests; all accounts use at most one exactly
      when each keeps to one key. */
  lemma NullifiersPerKey(lib: Libraries, g: Group, requests: seq<Request>, ws: seq<PrivateInputs>)
    requires |ws| == |requests| && Genuine(lib, g, requests, ws)
    ensures var history, used := Accepted(lib, g, requests, ws), Run(lib, g, requests).usedNullifiers;
      && (forall a: Holder :: |used * NullifiersOf(history, a)| == |KeysOf(history, a)|)
      && ((forall a: Holder :: |used * NullifiersOf(history, a)| <= 1) <==> OneKeyEach(history))
  {
    UsedOfRun(lib, g, requests, ws);
    UsedPerKey(lib.hash, Accepted(lib, g, requests, ws), GroupContext(lib, g.groupId));
  }

  lemma UsedOfRun(lib: Libraries, g: Group, requests: seq<Request>, ws: seq<PrivateInputs>)
    requires |ws| == |requests|
    ensures Run(lib, g, requests).usedNullifiers == Used(Accepted(lib, g, requests, ws))
  {
    RosterOfRun(lib, g, requests);
    forall n ensures n in Outcome(Events(lib, g, requests)) <==> n in Used(Accepted(lib, g, requests, ws)) {
      OutcomeNamed(Events(lib, g, requests), n);
      NamedIffUsed(lib, g, requests, ws, n);
    }
  }

  /** With genuine receipts a nullifier is always under one key, so the order of the requests never matters. */
  lemma GenuineOrderIrrelevant(lib: Libraries, g: Group, requests: seq<Request>, ws: seq<PrivateInputs>)
    requires |ws| == |requests| && Genuine(lib, g, requests, ws)
    ensures OrderIrrelevant(lib, g, requests)
  {
    var f, history := EventOf(lib, g), Accepted(lib, g, requests, ws);
    forall a, b | a in requests && b in requests ensures !Clash(f, a, b) {
      if Clash(f, a, b) {
        var i: nat :| i < |requests| && requests[i] == a;
        var j: nat :| j < |requests| && requests[j] == b;
        SameNullifier(lib.hash, history, GroupContext(lib, g.groupId), i, j);
      }
    }
    forall q | q in requests && f(q).Some? ensures HasSole(f, requests, f(q).value.1) {
      assert Sole(f, requests, q);
    }
    OrderIrrelevantIff(lib, g, requests);
  }

  /** A run in which one account joins twice: both receipts are of its witness, nothing collides, and both keys become
      members. */
  lemma OneAccountJoinsTwice() returns (lib: Libraries, g: Group, w: PrivateInputs, a: Request, b: Request)
    ensures Verified(lib, g, a).Ok? && Verified(lib, g, b).Ok? && g.minimumStake == 1
    ensures Genuine(lib, g, [a, b], [w, w])
    ensures var j, k := Verified(lib, g, a).value, Verified(lib, g, b).value;
      && Attested(lib.hash, w, StatementOf(j)) == Ok(j.nullifier)
      && Attested(lib.hash, w, StatementOf(k)) == Ok(k.nullifier)
      && j.presenterPubkey != k.presenterPubkey
      && Run(lib, g, [a, b]) == Roster({j.presenterPubkey, k.presenterPubkey}, {j.nullifier, k.nullifier})
  {
    lib, g, w := ExampleLibraries(), Group([], 1), ExampleWitness();
    a, b := Request([], Zeros(32), []), Request([0], Zeros(32), []);
    ExampleAttests(Zeros(32), 2);
    ExampleAttests(Zeros(32), 3);
    RunTwo(lib, g, a, b);
    assert Accepted(lib, g, [a, b], [w, w])
      == [Some(Presentation(Verified(lib, g, a).value, w)), Some(Presentation(Verified(lib, g, b).value, w))];
    ExampleGenuine(Zeros(32));
  }

  lemma RunTwo(lib: Libraries, g: Group, a: Request, b: Request)
    ensures Run(lib, g, [a, b]) == Admitted(lib, g, Admitted(lib, g, Roster({}, {}), a).0, b).0
  {
    assert [a, b][..1] == [a] && [a][..0] == [];
    assert Run(lib, g, [a]) == Admitted(lib, g, Run(lib, g, [a][..0]), a).0;
  }
}
