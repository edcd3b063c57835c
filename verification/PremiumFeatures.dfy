/** Premium features: a nullifier activates one tier, once. */
module PremiumFeatures {
  import opened ByteStrings
  import opened Attestation
  import opened Verifier
  import opened FirstWins
  import opened Wrappers

  datatype Tier = Free | Pro | Enterprise

  function MinimumBalance(t: Tier): U128 {
    match t
    case Free => 0
    case Pro => 10_000
    case Enterprise => 1_000_000
  }

  function TierName(t: Tier): Bytes {
    match t
    case Free => Ascii("free")
    case Pro => Ascii("pro")
    case Enterprise => Ascii("enterprise")
  }

  function TierInput(t: Tier): Bytes {
    Ascii("/lp-0005/integ/premium-features-v1/tier/") + TierName(t)
  }

  function ContextId(lib: Libraries, t: Tier): Digest {
    lib.sha(TierInput(t))
  }

  datatype ActivateError = Rejected(e: VerifyError) | NullifierReused

  datatype Request = Request(tier: Tier, receipt: Bytes, presenterNonce: Digest, der: Bytes)

  function Verified(lib: Libraries, q: Request): Result<PublicJournal, VerifyError> {
    VerifyCredential(lib, q.receipt, q.presenterNonce, q.der, ContextId(lib, q.tier), MinimumBalance(q.tier))
  }

  function Activated(lib: Libraries, sessions: map<Digest, Tier>, q: Request)
    : (map<Digest, Tier>, Result<PublicJournal, ActivateError>)
  {
    match Verified(lib, q)
    case Err(e) => (sessions, Err(Rejected(e)))
    case Ok(j) =>
      if j.nullifier in sessions then (sessions, Err(NullifierReused))
      else (sessions[j.nullifier := q.tier], Ok(j))
  }

  class FeatureService {
    var activeSessions: map<Digest, Tier>

    constructor ()
      ensures activeSessions == map[]
    {
      activeSessions := map[];
    }

    method Activate(lib: Libraries, q: Request) returns (r: Result<PublicJournal, ActivateError>)
      modifies this
      ensures (activeSessions, r) == Activated(lib, old(activeSessions), q)
    {
      var ctx := ContextId(lib, q.tier);
      var v := VerifyCredential(lib, q.receipt, q.presenterNonce, q.der, ctx, MinimumBalance(q.tier));
      if v.Err? {
        return Err(Rejected(v.error));
      }
      if v.value.nullifier in activeSessions {
        return Err(NullifierReused);
      }
      activeSessions := activeSessions[v.value.nullifier := q.tier];
      r := Ok(v.value);
    }

    function TierFor(nullifier: Digest): (t: Option<Tier>)
      reads this
      ensures t.Some? <==> nullifier in activeSessions
      ensures t.Some? ==> activeSessions[nullifier] == t.value
    {
      if nullifier in activeSessions then Some(activeSessions[nullifier]) else None
    }
  }

  // ---- runs

  function Run(lib: Libraries, requests: seq<Request>): map<Digest, Tier> {
    if requests == [] then map[]
    else Activated(lib, Run(lib, requests[..|requests| - 1]), requests[|requests| - 1]).0
  }

  /** What a journal must say for a tier: the tier's context and at least its minimum. */
  predicate ForTier(lib: Libraries, j: PublicJournal, t: Tier) {
    match t
    case Free => j.contextId == lib.sha(Ascii("/lp-0005/integ/premium-features-v1/tier/free"))
    case Pro =>
      j.contextId == lib.sha(Ascii("/lp-0005/integ/premium-features-v1/tier/pro")) && j.threshold >= 10_000
    case Enterprise =>
      j.contextId == lib.sha(Ascii("/lp-0005/integ/premium-features-v1/tier/enterprise")) && j.threshold >= 1_000_000
  }

  /** A request is valid with a journal when its receipt verifies to that journal, and the journal is for the requested
      tier and signed by its presenter for the request's nonce. */
  predicate Valid(lib: Libraries, q: Request, j: PublicJournal) {
    && lib.receiptVerifies(q.receipt) && lib.decodeJournal(q.receipt) == Some(j)
    && ForTier(lib, j, q.tier) && SignedBy(lib, j, q.presenterNonce, q.der)
  }

  /** The verifier, as this consumer calls it, accepts the valid requests and no others. */
  lemma VerifiedIffValid(lib: Libraries, q: Request, j: PublicJournal)
    ensures Verified(lib, q) == Ok(j) <==> Valid(lib, q, j)
  {
    CredentialIff(lib, q.receipt, q.presenterNonce, q.der, ContextId(lib, q.tier), MinimumBalance(q.tier), j);
    TierTexts();
  }

  lemma TierTexts()
    ensures TierInput(Free) == Ascii("/lp-0005/integ/premium-features-v1/tier/free")
    ensures TierInput(Pro) == Ascii("/lp-0005/integ/premium-features-v1/tier/pro")
    ensures TierInput(Enterprise) == Ascii("/lp-0005/integ/premium-features-v1/tier/enterprise")
  {
    AsciiConcat("/lp-0005/integ/premium-features-v1/tier/", "free");
    AsciiConcat("/lp-0005/integ/premium-features-v1/tier/", "pro");
    AsciiConcat("/lp-0005/integ/premium-features-v1/tier/", "enterprise");
    assert "/lp-0005/integ/premium-features-v1/tier/" + "free" == "/lp-0005/integ/premium-features-v1/tier/free";
    assert "/lp-0005/integ/premium-features-v1/tier/" + "pro" == "/lp-0005/integ/premium-features-v1/tier/pro";
    assert "/lp-0005/integ/premium-features-v1/tier/" + "enterprise"
        == "/lp-0005/integ/premium-features-v1/tier/enterprise";
  }

  lemma AsciiConcat(s: string, t: string)
    ensures Ascii(s + t) == Ascii(s) + Ascii(t)
  {}

  /** A valid request counts for its nullifier. */
  function Event(lib: Libraries, q: Request): Option<(Digest, Tier)> {
    match lib.decodeJournal(q.receipt)
    case Some(j) => if Valid(lib, q, j) then Some((j.nullifier, q.tier)) else None
    case None => None
  }

  lemma EventIsVerified(lib: Libraries, q: Request)
    ensures Verified(lib, q).Ok? <==> Event(lib, q).Some?
    ensures Verified(lib, q).Ok? ==>
      Event(lib, q) == Some((Verified(lib, q).value.nullifier, q.tier)) && Valid(lib, q, Verified(lib, q).value)
  {
    if Verified(lib, q).Ok? {
      VerifiedIffValid(lib, q, Verified(lib, q).value);
    }
    if Event(lib, q).Some? {
      VerifiedIffValid(lib, q, lib.decodeJournal(q.receipt).value);
    }
  }

  function Events(lib: Libraries, requests: seq<Request>): (es: seq<Option<(Digest, Tier)>>)
    ensures |es| == |requests| && forall i :: 0 <= i < |requests| ==> es[i] == Event(lib, requests[i])
  {
    Mapped(EventOf(lib), requests)
  }

  function EventOf(lib: Libraries): Request -> Option<(Digest, Tier)> {
    q => Event(lib, q)
  }

  /** The sessions of any run: per nullifier the tier of its first verified request. */
  lemma {:induction false} SessionsOfRun(lib: Libraries, requests: seq<Request>)
    ensures Run(lib, requests) == Outcome(Events(lib, requests))
  {
    if requests != [] {
      var n := |requests| - 1;
      SessionsOfRun(lib, requests[..n]);
      EventIsVerified(lib, requests[n]);
      assert Events(lib, requests)[..n] == Events(lib, requests[..n]);
    }
  }

  /** What `tier_for` answers after a run: the tier of the nullifier's earliest verified request, and nothing if no
      verified request, for whatever tier, had the nullifier. */
  lemma TierForAfterRun(lib: Libraries, requests: seq<Request>, service: FeatureService, nullifier: Digest)
    requires service.activeSessions == Run(lib, requests)
    ensures service.TierFor(nullifier).Some? <==> Named(Events(lib, requests), nullifier)
    ensures forall i: nat :: Earliest(Events(lib, requests), i, nullifier) ==>
      service.TierFor(nullifier) == Some(requests[i].tier)
  {
    var es := Events(lib, requests);
    SessionsOfRun(lib, requests);
    OutcomeNamed(es, nullifier);
    forall i: nat | Earliest(es, i, nullifier) ensures service.TierFor(nullifier) == Some(requests[i].tier) {
      EarliestDecides(es, i, nullifier);
    }
  }

  ghost predicate OrderIrrelevant(lib: Libraries, requests: seq<Request>) {
    forall other :: multiset(other) == multiset(requests) ==> Run(lib, other) == Run(lib, requests)
  }

  /** The sessions are the same in every order of the requests exactly when no nullifier verifies for two tiers. */
  lemma OrderIrrelevantIffNoClash(lib: Libraries, requests: seq<Request>)
    ensures OrderIrrelevant(lib, requests) <==> !Clashing(EventOf(lib), requests)
  {
    var f := EventOf(lib);
    StableIffNoClash(f, requests);
    SessionsOfRun(lib, requests);
    if Stable(f, requests) {
      forall other | multiset(other) == multiset(requests) ensures Run(lib, other) == Run(lib, requests) {
        SessionsOfRun(lib, other);
        assert Outcome(Mapped(f, other)) == Outcome(Mapped(f, requests));
      }
    }
    if OrderIrrelevant(lib, requests) {
      forall other | multiset(other) == multiset(requests)
        ensures Outcome(Mapped(f, other)) == Outcome(Mapped(f, requests))
      {
        SessionsOfRun(lib, other);
        assert Run(lib, other) == Run(lib, requests);
      }
    }
  }

  /** What the next call does after any run: it activates just when the request is valid and no valid request before,
      for whatever tier, had its nullifier; it fails for the verifier's reason or as a reuse, and a failed call
      changes nothing. */
  lemma ActivateAfterRun(lib: Libraries, requests: seq<Request>, q: Request)
    ensures var (s', result) := Activated(lib, Run(lib, requests), q);
      && (forall j :: result == Ok(j) <==> Valid(lib, q, j) && !Named(Events(lib, requests), j.nullifier))
      && (result == Err(NullifierReused) <==>
            Event(lib, q).Some? && Named(Events(lib, requests), Event(lib, q).value.0))
      && (result.Err? && result.error.Rejected? <==> Event(lib, q).None?)
      && (result.Err? ==> s' == Run(lib, requests))
  {
    SessionsOfRun(lib, requests);
    EventIsVerified(lib, q);
    if Event(lib, q).Some? {
      OutcomeNamed(Events(lib, requests), Event(lib, q).value.0);
    }
  }

  /** A session is never removed or moved to another tier by what comes later. */
  lemma SessionsStay(lib: Libraries, earlier: seq<Request>, later: seq<Request>, nullifier: Digest)
    requires nullifier in Run(lib, earlier)
    ensures nullifier in Run(lib, earlier + later)
    ensures Run(lib, earlier + later)[nullifier] == Run(lib, earlier)[nullifier]
  {
    SessionsOfRun(lib, earlier);
    SessionsOfRun(lib, earlier + later);
    OutcomeGrows(Events(lib, earlier), Events(lib, later));
    EventsAppend(lib, earlier, later);
  }

  lemma EventsAppend(lib: Libraries, a: seq<Request>, b: seq<Request>)
    ensures Events(lib, a + b) == Events(lib, a) + Events(lib, b)
  {}

  /** Every session's tier was earned: some receipt of the run verified to a signed journal with that nullifier, that
      tier's context and a threshold of at least that tier's minimum. */
  lemma SessionEarned(lib: Libraries, requests: seq<Request>, nullifier: Digest) returns (q: Request, j: PublicJournal)
    requires nullifier in Run(lib, requests)
    ensures q in requests && q.tier == Run(lib, requests)[nullifier]
    ensures Valid(lib, q, j) && j.nullifier == nullifier
  {
    SessionsOfRun(lib, requests);
    var i := EarliestExists(Events(lib, requests), nullifier);
    q := requests[i];
    j := lib.decodeJournal(q.receipt).value;
  }

  /** A journal for one tier opens no other tier, or else two tier names collide. */
  lemma TierContextBinds(lib: Libraries, t: Tier, t': Tier)
    requires ContextId(lib, t) == ContextId(lib, t') && t != t'
    ensures TierInput(t) != TierInput(t') && lib.sha(TierInput(t)) == lib.sha(TierInput(t'))
  {
    assert |TierInput(t)| == 40 + |TierName(t)| && |TierInput(t')| == 40 + |TierName(t')|;
  }
}
