/** The governance gate: a vote counts once per nullifier. */
module Governance {
  import opened ByteStrings
  import opened Attestation
  import opened Verifier
  import opened FirstWins
  import opened Accounts
  import opened Sequences
  import opened Wrappers

  function GovernanceContext(): Digest {
    Tag("/lp-0005/integ/governance-v1/", 32)
  }

  datatype VoteError = Rejected(e: GateError) | NullifierReused

  datatype Ballot = Ballot(
    attestation: PublicJournal, presenterNonce: Digest, der: Bytes, minimumStake: U128, voteYes: bool)

  function Inputs(b: Ballot): GateInputs {
    GateInputs(b.attestation, GovernanceContext(), b.minimumStake, b.presenterNonce, b.der)
  }

  datatype Tally = Tally(yesVotes: U64, noVotes: U64, usedNullifiers: set<Digest>)

  /** Vote counters are 64-bit words that wrap around in release builds. */
  function Wrap(n: nat): U64 {
    n % 0x1_0000_0000_0000_0000
  }

  function Increment(n: U64): U64 {
    Wrap(n + 1)
  }

  lemma WrapNext(n: nat)
    ensures Increment(Wrap(n)) == Wrap(n + 1)
  {}

  lemma WrapExact(m: nat, n: nat)
    ensures Wrap(m) + Wrap(n) == m + n <==> m < 0x1_0000_0000_0000_0000 && n < 0x1_0000_0000_0000_0000
  {}

  function Cast(lib: Libraries, t: Tally, b: Ballot): (Tally, Result<(), VoteError>) {
    match CheckGate(lib, Inputs(b))
    case Err(e) => (t, Err(Rejected(e)))
    case Ok(_) =>
      if b.attestation.nullifier in t.usedNullifiers then (t, Err(NullifierReused))
      else
        var used := t.usedNullifiers + {b.attestation.nullifier};
        if b.voteYes then (Tally(Increment(t.yesVotes), t.noVotes, used), Ok(()))
        else (Tally(t.yesVotes, Increment(t.noVotes), used), Ok(()))
  }

  class ProposalState {
    var yesVotes: U64
    var noVotes: U64
    var usedNullifiers: set<Digest>

    constructor ()
      ensures Contents() == Tally(0, 0, {})
    {
      yesVotes, noVotes, usedNullifiers := 0, 0, {};
    }

    ghost function Contents(): Tally
      reads this
    {
      Tally(yesVotes, noVotes, usedNullifiers)
    }

    method CastVote(lib: Libraries, b: Ballot) returns (r: Result<(), VoteError>)
      modifies this
      ensures (Contents(), r) == Cast(lib, old(Contents()), b)
    {
      var gate := CheckGate(lib, Inputs(b));
      if gate.Err? {
        return Err(Rejected(gate.error));
      }
      if b.attestation.nullifier in usedNullifiers {
        return Err(NullifierReused);
      }
      usedNullifiers := usedNullifiers + {b.attestation.nullifier};
      if b.voteYes {
        yesVotes := Increment(yesVotes);
      } else {
        noVotes := Increment(noVotes);
      }
      r := Ok(());
    }
  }

  // ---- runs

  function Run(lib: Libraries, t: Tally, ballots: seq<Ballot>): Tally {
    if ballots == [] then t
    else Cast(lib, Run(lib, t, ballots[..|ballots| - 1]), ballots[|ballots| - 1]).0
  }

  /** A ballot is valid when its attestation is for governance, proves at least the stake and is signed by its presenter
      for this ballot's nonce. */
  predicate Valid(lib: Libraries, b: Ballot) {
    && TextAt(b.attestation.contextId, "/lp-0005/integ/governance-v1/", 32)
    && b.attestation.threshold >= b.minimumStake
    && SignedBy(lib, b.attestation, b.presenterNonce, b.der)
  }

  /** The gate, as this consumer calls it, accepts the valid ballots and no others. */
  lemma GateAcceptsValid(lib: Libraries, b: Ballot)
    ensures CheckGate(lib, Inputs(b)).Ok? <==> Valid(lib, b)
  {
    CheckGateIff(lib, Inputs(b));
    TextIffTag(b.attestation.contextId, "/lp-0005/integ/governance-v1/", 32);
    assert b.attestation.contextId[0..32] == b.attestation.contextId;
  }

  /** A valid ballot counts for its nullifier. */
  function Event(lib: Libraries, b: Ballot): Option<(Digest, bool)> {
    if Valid(lib, b) then Some((b.attestation.nullifier, b.voteYes)) else None
  }

  function EventOf(lib: Libraries): Ballot -> Option<(Digest, bool)> {
    b => Event(lib, b)
  }

  function Events(lib: Libraries, ballots: seq<Ballot>): (es: seq<Option<(Digest, bool)>>)
    ensures |es| == |ballots| && forall i :: 0 <= i < |ballots| ==> es[i] == Event(lib, ballots[i])
  {
    Mapped(EventOf(lib), ballots)
  }

  /** Each nullifier's choice: that of its first gate-valid ballot (`FirstWins.EarliestDecides`). */
  function Choices(lib: Libraries, ballots: seq<Ballot>): map<Digest, bool> {
    Outcome(Events(lib, ballots))
  }

  function Choosers(m: map<Digest, bool>, choice: bool): set<Digest> {
    set n | n in m && m[n] == choice
  }

  /** The tally of any run: the nullifiers of valid ballots, and per choice the number of nullifiers whose first valid
      ballot made it, modulo 2^64. */
  lemma TallyOfRun(lib: Libraries, ballots: seq<Ballot>)
    ensures var t, m := Run(lib, Tally(0, 0, {}), ballots), Choices(lib, ballots);
      && t.usedNullifiers == m.Keys
      && t.yesVotes == |Choosers(m, true)| % 0x1_0000_0000_0000_0000
      && t.noVotes == |Choosers(m, false)| % 0x1_0000_0000_0000_0000
  {
    RunCounts(lib, ballots);
  }

  lemma {:induction false} RunCounts(lib: Libraries, ballots: seq<Ballot>)
    ensures Run(lib, Tally(0, 0, {}), ballots) == Count(Choices(lib, ballots))
  {
    if ballots == [] {
      assert Choosers(map[], true) == {} && Choosers(map[], false) == {};
    } else {
      var n := |ballots| - 1;
      RunCounts(lib, ballots[..n]);
      EventsPrefix(lib, ballots, n);
      CountStep(lib, Choices(lib, ballots[..n]), ballots[n]);
    }
  }

  lemma EventsPrefix(lib: Libraries, ballots: seq<Ballot>, n: nat)
    requires n <= |ballots|
    ensures Events(lib, ballots)[..n] == Events(lib, ballots[..n])
  {}

  function Count(m: map<Digest, bool>): Tally {
    Tally(Wrap(|Choosers(m, true)|), Wrap(|Choosers(m, false)|), m.Keys)
  }

  lemma CountStep(lib: Libraries, m: map<Digest, bool>, b: Ballot)
    ensures Cast(lib, Count(m), b).0 == Count(Take(m, Event(lib, b)))
  {
    var k, v := b.attestation.nullifier, b.voteYes;
    GateAcceptsValid(lib, b);
    if k !in m {
      ChoosersGrow(m, k, v);
      WrapNext(|Choosers(m, v)|);
      assert m[k := v].Keys == m.Keys + {k};
    }
  }

  lemma ChoosersGrow(m: map<Digest, bool>, k: Digest, v: bool)
    requires k !in m
    ensures |Choosers(m[k := v], v)| == |Choosers(m, v)| + 1
    ensures Choosers(m[k := v], !v) == Choosers(m, !v)
  {
    assert Choosers(m[k := v], v) == Choosers(m, v) + {k};
  }

  lemma ChoosersPartition(m: map<Digest, bool>)
    ensures |Choosers(m, true)| + |Choosers(m, false)| == |m.Keys|
  {
    assert Choosers(m, true) + Choosers(m, false) == m.Keys;
    assert Choosers(m, true) !! Choosers(m, false);
  }

  /** The counters add up to the number of used nullifiers exactly as long as neither has wrapped. */
  lemma VotesAddUp(lib: Libraries, ballots: seq<Ballot>)
    ensures var t, m := Run(lib, Tally(0, 0, {}), ballots), Choices(lib, ballots);
      t.yesVotes + t.noVotes == |t.usedNullifiers| <==>
        |Choosers(m, true)| < 0x1_0000_0000_0000_0000 && |Choosers(m, false)| < 0x1_0000_0000_0000_0000
  {
    var m := Choices(lib, ballots);
    TallyOfRun(lib, ballots);
    ChoosersPartition(m);
    WrapExact(|Choosers(m, true)|, |Choosers(m, false)|);
  }

  // ---- order

  ghost predicate Voted(lib: Libraries, ballots: seq<Ballot>, n: Digest) {
    exists b :: b in ballots && Valid(lib, b) && b.attestation.nullifier == n
  }

  /** The used set is exactly the nullifiers of valid ballots: every vote counted comes from a signed attestation for
      governance of at least the stake, and every such ballot's nullifier is used. */
  lemma TurnoutIsVoters(lib: Libraries, ballots: seq<Ballot>, n: Digest)
    ensures n in Run(lib, Tally(0, 0, {}), ballots).usedNullifiers <==> Voted(lib, ballots, n)
  {
    TallyOfRun(lib, ballots);
    var es := Events(lib, ballots);
    OutcomeNamed(es, n);
    if Named(es, n) {
      var i: nat :| Names(es, i, n);
      assert ballots[i] in ballots;
    }
    if Voted(lib, ballots, n) {
      var b :| b in ballots && Valid(lib, b) && b.attestation.nullifier == n;
      var i: nat :| i < |ballots| && ballots[i] == b;
      assert Names(es, i, n);
    }
  }

  /** What the next call does after any run: a ballot counts just when it is valid and no valid ballot before had its
      nullifier; one that is not valid gets the gate's reason, a replayed one its own, and neither changes anything. */
  lemma CastAfterRun(lib: Libraries, ballots: seq<Ballot>, b: Ballot)
    ensures var t := Run(lib, Tally(0, 0, {}), ballots);
      var (t', r) := Cast(lib, t, b);
      && (r.Ok? <==> Valid(lib, b) && !Voted(lib, ballots, b.attestation.nullifier))
      && (r == Err(NullifierReused) <==> Valid(lib, b) && Voted(lib, ballots, b.attestation.nullifier))
      && (!Valid(lib, b) ==> CheckGate(lib, Inputs(b)).Err? && r == Err(Rejected(CheckGate(lib, Inputs(b)).error)))
      && (r.Err? ==> t' == t)
  {
    GateAcceptsValid(lib, b);
    TurnoutIsVoters(lib, ballots, b.attestation.nullifier);
  }

  /** Which nullifiers are used, and so how many votes are counted in all, does not depend on the order. */
  lemma TurnoutPermutes(lib: Libraries, a: seq<Ballot>, b: seq<Ballot>)
    requires multiset(a) == multiset(b)
    ensures Run(lib, Tally(0, 0, {}), a).usedNullifiers == Run(lib, Tally(0, 0, {}), b).usedNullifiers
  {
    TallyOfRun(lib, a);
    TallyOfRun(lib, b);
    MappedPermutes(EventOf(lib), a, b);
    KeysPermute(Events(lib, a), Events(lib, b));
  }

  /** Two valid ballots of one nullifier with different choices. */
  ghost predicate Conflict(lib: Libraries, ballots: seq<Ballot>) {
    exists a, b :: a in ballots && b in ballots && Contradict(lib, a, b)
  }

  predicate Contradict(lib: Libraries, a: Ballot, b: Ballot) {
    && Valid(lib, a) && Valid(lib, b)
    && a.attestation.nullifier == b.attestation.nullifier && a.voteYes && !b.voteYes
  }

  ghost predicate OrderIrrelevant(lib: Libraries, ballots: seq<Ballot>) {
    forall other :: multiset(other) == multiset(ballots) ==>
      Run(lib, Tally(0, 0, {}), other) == Run(lib, Tally(0, 0, {}), ballots)
  }

  /** The result is the same in every order exactly when no nullifier voted both ways. */
  lemma OrderIrrelevantIffNoConflict(lib: Libraries, ballots: seq<Ballot>)
    ensures OrderIrrelevant(lib, ballots) <==> !Conflict(lib, ballots)
  {
    if !Conflict(lib, ballots) {
      forall other | multiset(other) == multiset(ballots)
        ensures Run(lib, Tally(0, 0, {}), other) == Run(lib, Tally(0, 0, {}), ballots)
      {
        NoConflictPermutes(lib, other, ballots);
      }
    } else {
      ConflictMatters(lib, ballots);
    }
  }

  lemma ConflictMatters(lib: Libraries, ballots: seq<Ballot>)
    requires Conflict(lib, ballots)
    ensures !OrderIrrelevant(lib, ballots)
  {
    var a, b :| a in ballots && b in ballots && Contradict(lib, a, b);
    var rest := Without(ballots, a, b);
    FirstTwoDecide(lib, a, b, rest);
    DifferentOrders(lib, ballots, [a, b] + rest, [b, a] + rest);
  }

  lemma DifferentOrders(lib: Libraries, ballots: seq<Ballot>, x: seq<Ballot>, y: seq<Ballot>)
    requires multiset(x) == multiset(ballots) && multiset(y) == multiset(ballots)
    requires Run(lib, Tally(0, 0, {}), x) != Run(lib, Tally(0, 0, {}), y)
    ensures !OrderIrrelevant(lib, ballots)
  {}

  lemma Without(ballots: seq<Ballot>, a: Ballot, b: Ballot) returns (rest: seq<Ballot>)
    requires a in ballots && b in ballots && a != b
    ensures multiset([a, b] + rest) == multiset(ballots) && multiset([b, a] + rest) == multiset(ballots)
  {
    var others := TakeOut(ballots, a);
    StillThere(ballots, others, a, b);
    rest := TakeOut(others, b);
  }

  lemma StillThere<T>(s: seq<T>, rest: seq<T>, x: T, y: T)
    requires multiset(s) == multiset(rest) + multiset{x} && y in s && x != y
    ensures y in rest
  {
    assert y in multiset(s);
    assert y in multiset(rest);
  }

  /** With the same two contradicting ballots first, in either order, the yes counts differ by one. */
  lemma FirstTwoDecide(lib: Libraries, a: Ballot, b: Ballot, rest: seq<Ballot>)
    requires Contradict(lib, a, b)
    ensures Run(lib, Tally(0, 0, {}), [a, b] + rest) != Run(lib, Tally(0, 0, {}), [b, a] + rest)
  {
    var zero := Tally(0, 0, {});
    RunAppend(lib, zero, [a, b], rest);
    RunAppend(lib, zero, [b, a], rest);
    RunTwo(lib, zero, a, b);
    RunTwo(lib, zero, b, a);
    PairTally(lib, a, b);
    RunShift(lib, Run(lib, zero, [a, b]), Run(lib, zero, [b, a]), rest);
  }

  lemma PairTally(lib: Libraries, a: Ballot, b: Ballot)
    requires Contradict(lib, a, b)
    ensures var n := {a.attestation.nullifier};
      && Cast(lib, Cast(lib, Tally(0, 0, {}), a).0, b).0 == Tally(1, 0, n)
      && Cast(lib, Cast(lib, Tally(0, 0, {}), b).0, a).0 == Tally(0, 1, n)
  {}

  lemma RunTwo(lib: Libraries, t: Tally, a: Ballot, b: Ballot)
    ensures Run(lib, t, [a, b]) == Cast(lib, Cast(lib, t, a).0, b).0
  {
    assert [a, b][..1] == [a] && [a][..0] == [];
    assert Run(lib, t, [a]) == Cast(lib, Run(lib, t, [a][..0]), a).0;
  }

  lemma {:induction false} RunAppend(lib: Libraries, t: Tally, a: seq<Ballot>, b: seq<Ballot>)
    ensures Run(lib, t, a + b) == Run(lib, Run(lib, t, a), b)
    decreases |b|
  {
    if b == [] {
      assert a + b == a;
    } else {
      var n := |b| - 1;
      RunAppend(lib, t, a, b[..n]);
      InitOfConcat(a, b);
    }
  }

  /** Tallies with the same used nullifiers but different yes counts never become equal again. */
  lemma {:induction false} RunShift(lib: Libraries, s: Tally, t: Tally, ballots: seq<Ballot>)
    requires s.usedNullifiers == t.usedNullifiers && s.yesVotes != t.yesVotes
    ensures Run(lib, s, ballots).usedNullifiers == Run(lib, t, ballots).usedNullifiers
    ensures Run(lib, s, ballots).yesVotes != Run(lib, t, ballots).yesVotes
  {
    if ballots != [] {
      var n := |ballots| - 1;
      RunShift(lib, s, t, ballots[..n]);
      CastShift(lib, Run(lib, s, ballots[..n]), Run(lib, t, ballots[..n]), ballots[n]);
    }
  }

  lemma CastShift(lib: Libraries, s: Tally, t: Tally, b: Ballot)
    requires s.usedNullifiers == t.usedNullifiers && s.yesVotes != t.yesVotes
    ensures Cast(lib, s, b).0.usedNullifiers == Cast(lib, t, b).0.usedNullifiers
    ensures Cast(lib, s, b).0.yesVotes != Cast(lib, t, b).0.yesVotes
  {}

  lemma NoConflictPermutes(lib: Libraries, a: seq<Ballot>, b: seq<Ballot>)
    requires multiset(a) == multiset(b) && !Conflict(lib, b)
    ensures Run(lib, Tally(0, 0, {}), a) == Run(lib, Tally(0, 0, {}), b)
  {
    forall x, y | x in b && y in b ensures !Clash(EventOf(lib), x, y) {
      assert !Contradict(lib, x, y) && !Contradict(lib, y, x);
    }
    NoClashPermutes(EventOf(lib), a, b);
    TallyOfRun(lib, a);
    TallyOfRun(lib, b);
  }

  // ---- accounts

  /** The ballots the gate accepts, each with the witness its attestation was made from. */
  function Accepted(lib: Libraries, ballots: seq<Ballot>, ws: seq<PrivateInputs>): (r: History)
    requires |ws| == |ballots|
    ensures |r| == |ballots|
  {
    seq(|ballots|, i requires 0 <= i < |ballots| =>
      if Valid(lib, ballots[i]) then Some(Presentation(ballots[i].attestation, ws[i])) else None)
  }

  /** The ballots' attestations are proved and no two of the values hashed for them collide. */
  ghost predicate Genuine(lib: Libraries, ballots: seq<Ballot>, ws: seq<PrivateInputs>)
    requires |ws| == |ballots|
  {
    var history := Accepted(lib, ballots, ws);
    AllBacked(lib.hash, history, GovernanceContext()) && Distinguishes(lib.hash, history)
  }

  lemma UsedOfRun(lib: Libraries, ballots: seq<Ballot>, ws: seq<PrivateInputs>)
    requires |ws| == |ballots|
    ensures Run(lib, Tally(0, 0, {}), ballots).usedNullifiers == Used(Accepted(lib, ballots, ws))
  {
    var history := Accepted(lib, ballots, ws);
    forall n ensures n in Run(lib, Tally(0, 0, {}), ballots).usedNullifiers <==> n in Used(history) {
      TurnoutIsVoters(lib, ballots, n);
      if Voted(lib, ballots, n) {
        var b :| b in ballots && Valid(lib, b) && b.attestation.nullifier == n;
        var i: nat :| i < |ballots| && ballots[i] == b;
        assert history[i].Some? && history[i].value.journal.nullifier == n;
      }
      if n in Used(history) {
        var i: nat :| i < |history| && history[i].Some? && history[i].value.journal.nullifier == n;
        assert ballots[i] in ballots;
      }
    }
  }

  /** After any run an account's next ballot counts exactly when the gate accepts it and no accepted ballot of the
      same account was under the same presenter key: a second key is a second vote. */
  lemma CountsIffNewKey(lib: Libraries, ballots: seq<Ballot>, ws: seq<PrivateInputs>, b: Ballot, w: PrivateInputs)
    requires |ws| == |ballots| && Genuine(lib, ballots + [b], ws + [w])
    ensures Cast(lib, Run(lib, Tally(0, 0, {}), ballots), b).1.Ok? <==>
      && Valid(lib, b)
      && b.attestation.presenterPubkey !in KeysOf(Accepted(lib, ballots, ws), HolderOf(w))
  {
    GateAcceptsValid(lib, b);
    if Valid(lib, b) {
      var p := Presentation(b.attestation, w);
      assert Accepted(lib, ballots + [b], ws + [w]) == Accepted(lib, ballots, ws) + [Some(p)];
      UsedOfRun(lib, ballots, ws);
      UsedIffKeyUsed(lib.hash, Accepted(lib, ballots, ws), GovernanceContext(), p);
    }
  }

  /** An account has as many votes as it has presenter keys in accepted ballots; all accounts have at most one vote
      exactly when each keeps to one key. */
  lemma VotesPerKey(lib: Libraries, ballots: seq<Ballot>, ws: seq<PrivateInputs>)
    requires |ws| == |ballots| && Genuine(lib, ballots, ws)
    ensures var history, used := Accepted(lib, ballots, ws), Run(lib, Tally(0, 0, {}), ballots).usedNullifiers;
      && (forall a: Holder :: |used * NullifiersOf(history, a)| == |KeysOf(history, a)|)
      && ((forall a: Holder :: |used * NullifiersOf(history, a)| <= 1) <==> OneKeyEach(history))
  {
    UsedOfRun(lib, ballots, ws);
    UsedPerKey(lib.hash, Accepted(lib, ballots, ws), GovernanceContext());
  }

  /** A run in which one account votes twice: both attestations are proved by its witness, nothing collides, and both
      ballots count. */
  lemma OneAccountVotesTwice() returns (lib: Libraries, w: PrivateInputs, a: Ballot, b: Ballot)
    ensures Attested(lib.hash, w, StatementOf(a.attestation)) == Ok(a.attestation.nullifier)
    ensures Attested(lib.hash, w, StatementOf(b.attestation)) == Ok(b.attestation.nullifier)
    ensures a.minimumStake == b.minimumStake == 1 && Genuine(lib, [a, b], [w, w])
    ensures Run(lib, Tally(0, 0, {}), [a, b]) == Tally(2, 0, {a.attestation.nullifier, b.attestation.nullifier})
  {
    lib, w := ExampleLibraries(), ExampleWitness();
    a := Ballot(ExampleJournal(GovernanceContext(), 2), Zeros(32), [], 1, true);
    b := Ballot(ExampleJournal(GovernanceContext(), 3), Zeros(32), [], 1, true);
    ExampleAttests(GovernanceContext(), 2);
    ExampleAttests(GovernanceContext(), 3);
    TwoYes(lib, a, b);
    assert Accepted(lib, [a, b], [w, w])
      == [Some(Presentation(a.attestation, w)), Some(Presentation(b.attestation, w))];
    ExampleGenuine(GovernanceContext());
  }

  lemma TwoYes(lib: Libraries, a: Ballot, b: Ballot)
    requires Valid(lib, a) && Valid(lib, b) && a.voteYes && b.voteYes
    requires a.attestation.nullifier != b.attestation.nullifier
    ensures Run(lib, Tally(0, 0, {}), [a, b]) == Tally(2, 0, {a.attestation.nullifier, b.attestation.nullifier})
  {
    RunTwo(lib, Tally(0, 0, {}), a, b);
  }
}
