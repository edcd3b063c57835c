/** Requests keyed by a nullifier, of which only the first valid one per key takes effect: the shape of all
    three consumers.  A request that fails verification is `None`. */
module FirstWins {
  import opened Sequences
  import opened Wrappers

  /** The effect of a run: each key with the value of its first valid request. */
  function Outcome<K, V>(events: seq<Option<(K, V)>>): map<K, V> {
    if events == [] then map[]
    else Take(Outcome(events[..|events| - 1]), events[|events| - 1])
  }

  function Take<K, V>(m: map<K, V>, e: Option<(K, V)>): map<K, V> {
    if e.Some? && e.value.0 !in m then m[e.value.0 := e.value.1] else m
  }

  predicate Names<K(==), V>(events: seq<Option<(K, V)>>, i: nat, k: K) {
    i < |events| && events[i].Some? && events[i].value.0 == k
  }

  predicate Earliest<K(==), V>(events: seq<Option<(K, V)>>, i: nat, k: K) {
    Names(events, i, k) && forall j :: 0 <= j < i ==> !Names(events, j, k)
  }

  ghost predicate Named<K, V>(events: seq<Option<(K, V)>>, k: K) {
    exists i: nat :: Names(events, i, k)
  }

  /** A key has an outcome just when some valid request named it. */
  lemma {:induction false} OutcomeNamed<K, V>(events: seq<Option<(K, V)>>, k: K)
    ensures k in Outcome(events) <==> Named(events, k)
  {
    if events != [] {
      var n := |events| - 1;
      OutcomeNamed(events[..n], k);
      if Named(events[..n], k) {
        var i: nat :| Names(events[..n], i, k);
        assert Names(events, i, k);
      }
      if Named(events, k) {
        var i: nat :| Names(events, i, k);
        if i < n {
          assert Names(events[..n], i, k);
        }
      }
      if k in Outcome(events) && k !in Outcome(events[..n]) {
        assert Names(events, n, k);
      }
    }
  }

  /** The earliest request of a key decides its value. */
  lemma {:induction false} EarliestDecides<K, V>(events: seq<Option<(K, V)>>, i: nat, k: K)
    requires Earliest(events, i, k)
    ensures k in Outcome(events) && Outcome(events)[k] == events[i].value.1
    decreases |events|
  {
    var n := |events| - 1;
    if i < n {
      assert forall j: nat :: j <= i ==> Names(events[..n], j, k) == Names(events, j, k);
      EarliestDecides(events[..n], i, k);
    } else {
      assert forall j: nat :: j < n ==> Names(events[..n], j, k) == Names(events, j, k);
      OutcomeNamed(events[..n], k);
    }
  }

  /** Every key with an outcome has an earliest request. */
  lemma EarliestExists<K, V>(events: seq<Option<(K, V)>>, k: K) returns (i: nat)
    requires k in Outcome(events)
    ensures Earliest(events, i, k) && Outcome(events)[k] == events[i].value.1
  {
    OutcomeNamed(events, k);
    var j: nat :| Names(events, j, k);
    i := FindEarliest(events, j, k);
    EarliestDecides(events, i, k);
  }

  lemma {:induction false} FindEarliest<K, V>(events: seq<Option<(K, V)>>, n: nat, k: K) returns (i: nat)
    requires Names(events, n, k)
    ensures i <= n && Earliest(events, i, k)
    decreases n
  {
    if j: nat :| j < n && Names(events, j, k) {
      i := FindEarliest(events, j, k);
    } else {
      i := n;
    }
  }

  /** Later requests neither remove nor change what earlier ones decided. */
  lemma {:induction false} OutcomeGrows<K, V>(a: seq<Option<(K, V)>>, b: seq<Option<(K, V)>>)
    ensures forall k :: k in Outcome(a) ==> k in Outcome(a + b) && Outcome(a + b)[k] == Outcome(a)[k]
    decreases |b|
  {
    if b == [] {
      assert a + b == a;
    } else {
      var n := |b| - 1;
      OutcomeGrows(a, b[..n]);
      assert (a + b)[..|a + b| - 1] == a + b[..n];
    }
  }

  /** The keys that have an outcome do not depend on the order of the requests. */
  lemma KeysPermute<K(!new), V>(a: seq<Option<(K, V)>>, b: seq<Option<(K, V)>>)
    requires multiset(a) == multiset(b)
    ensures Outcome(a).Keys == Outcome(b).Keys
  {
    var s, t := Outcome(a).Keys, Outcome(b).Keys;
    forall k: K ensures k in s <==> k in t {
      OutcomeNamed(a, k);
      OutcomeNamed(b, k);
      NamedPermutes(a, b, k);
      NamedPermutes(b, a, k);
    }
  }

  lemma NamedPermutes<K, V>(a: seq<Option<(K, V)>>, b: seq<Option<(K, V)>>, k: K)
    requires multiset(a) == multiset(b)
    ensures Named(a, k) ==> Named(b, k)
  {
    if Named(a, k) {
      var i: nat :| Names(a, i, k);
      assert a[i] in multiset(b);
      var j: nat :| j < |b| && b[j] == a[i];
      assert Names(b, j, k);
    }
  }

  // ---- runs of requests in another order

  /** The events of a run of requests. */
  function Mapped<Q, K, V>(f: Q -> Option<(K, V)>, qs: seq<Q>): (es: seq<Option<(K, V)>>)
    ensures |es| == |qs| && forall i :: 0 <= i < |qs| ==> es[i] == f(qs[i])
  {
    seq(|qs|, i requires 0 <= i < |qs| => f(qs[i]))
  }

  lemma {:induction false} MappedPermutes<Q, K, V>(f: Q -> Option<(K, V)>, a: seq<Q>, b: seq<Q>)
    requires multiset(a) == multiset(b)
    ensures multiset(Mapped(f, a)) == multiset(Mapped(f, b))
    decreases |a|
  {
    if a == [] {
      assert |multiset(b)| == 0;
    } else {
      var i := Counterpart(a, b);
      MappedPermutes(f, a[..0] + a[1..], b[..i] + b[i + 1..]);
      MappedSplit(f, a, 0);
      MappedSplit(f, b, i);
    }
  }

  lemma MappedSplit<Q, K, V>(f: Q -> Option<(K, V)>, b: seq<Q>, i: nat)
    requires i < |b|
    ensures multiset(Mapped(f, b)) == multiset(Mapped(f, b[..i] + b[i + 1..])) + multiset{f(b[i])}
  {
    Removed(Mapped(f, b), i);
    assert Mapped(f, b[..i] + b[i + 1..]) == Mapped(f, b)[..i] + Mapped(f, b)[i + 1..];
  }

  /** Two valid requests with one key and different values. */
  ghost predicate Clash<Q, K, V>(f: Q -> Option<(K, V)>, a: Q, b: Q) {
    f(a).Some? && f(b).Some? && f(a).value.0 == f(b).value.0 && f(a).value.1 != f(b).value.1
  }

  ghost predicate Stable<Q(!new), K, V>(f: Q -> Option<(K, V)>, qs: seq<Q>) {
    forall other :: multiset(other) == multiset(qs) ==> Outcome(Mapped(f, other)) == Outcome(Mapped(f, qs))
  }

  ghost predicate Clashing<Q(!new), K, V>(f: Q -> Option<(K, V)>, qs: seq<Q>) {
    exists a, b :: a in qs && b in qs && Clash(f, a, b)
  }

  /** Every order of the requests has the same outcome exactly when no two valid ones clash. */
  lemma StableIffNoClash<Q(!new), K(!new), V>(f: Q -> Option<(K, V)>, qs: seq<Q>)
    ensures Stable(f, qs) <==> !Clashing(f, qs)
  {
    if Clashing(f, qs) {
      var a, b :| a in qs && b in qs && Clash(f, a, b);
      var x := MovedFirst(f, qs, a);
      var y := MovedFirst(f, qs, b);
      assert Outcome(Mapped(f, x)) != Outcome(Mapped(f, y));
    } else {
      forall other | multiset(other) == multiset(qs) ensures Outcome(Mapped(f, other)) == Outcome(Mapped(f, qs)) {
        NoClashPermutes(f, other, qs);
      }
    }
  }

  /** The order that takes one of the requests first decides for it. */
  lemma MovedFirst<Q, K, V>(f: Q -> Option<(K, V)>, qs: seq<Q>, a: Q) returns (x: seq<Q>)
    requires a in qs && f(a).Some?
    ensures multiset(x) == multiset(qs)
    ensures f(a).value.0 in Outcome(Mapped(f, x)) && Outcome(Mapped(f, x))[f(a).value.0] == f(a).value.1
  {
    var rest := TakeOut(qs, a);
    x := [a] + rest;
    EarliestDecides(Mapped(f, x), 0, f(a).value.0);
  }

  lemma NoClashPermutes<Q(!new), K(!new), V>(f: Q -> Option<(K, V)>, a: seq<Q>, b: seq<Q>)
    requires multiset(a) == multiset(b) && !Clashing(f, b)
    ensures Outcome(Mapped(f, a)) == Outcome(Mapped(f, b))
  {
    var m, m' := Outcome(Mapped(f, a)), Outcome(Mapped(f, b));
    SameMembers(a, b);
    MappedPermutes(f, a, b);
    KeysPermute(Mapped(f, a), Mapped(f, b));
    forall k | k in m ensures m[k] == m'[k] {
      assert k in m.Keys;
      var i := EarliestExists(Mapped(f, a), k);
      var j := EarliestExists(Mapped(f, b), k);
      assert a[i] in b && b[j] in b && !Clash(f, a[i], b[j]);
    }
  }

  // ---- the set of values alone

  ghost predicate ValuesStable<Q(!new), K, V>(f: Q -> Option<(K, V)>, qs: seq<Q>) {
    forall other :: multiset(other) == multiset(qs) ==>
      Outcome(Mapped(f, other)).Values == Outcome(Mapped(f, qs)).Values
  }

  /** The request's value is the only one its key is ever given. */
  ghost predicate Sole<Q, K, V>(f: Q -> Option<(K, V)>, qs: seq<Q>, a: Q) {
    a in qs && f(a).Some? && forall b :: b in qs ==> !Clash(f, a, b)
  }

  /** Every value given is given by some request without a rival. */
  ghost predicate Backing<Q(!new), K, V>(f: Q -> Option<(K, V)>, qs: seq<Q>) {
    forall q :: q in qs && f(q).Some? ==> HasSole(f, qs, f(q).value.1)
  }

  ghost predicate HasSole<Q(!new), K, V>(f: Q -> Option<(K, V)>, qs: seq<Q>, v: V) {
    exists a :: Sole(f, qs, a) && f(a).value.1 == v
  }

  /** Every order of the requests gives the same set of values exactly when every value is some key's only one. */
  lemma ValuesStableIff<Q(!new), K(!new), V(!new)>(f: Q -> Option<(K, V)>, qs: seq<Q>)
    ensures ValuesStable(f, qs) <==> Backing(f, qs)
  {
    if Backing(f, qs) {
      forall other | multiset(other) == multiset(qs)
        ensures Outcome(Mapped(f, other)).Values == Outcome(Mapped(f, qs)).Values
      {
        SameMembers(other, qs);
        AllValues(f, qs, other);
        AllValues(f, qs, qs);
      }
    } else {
      var q :| q in qs && f(q).Some? && !HasSole(f, qs, f(q).value.1);
      var v := f(q).value.1;
      var x := MovedFirst(f, qs, q);
      var y := MovedLast(f, qs, v);
      assert v in Outcome(Mapped(f, x)).Values && v !in Outcome(Mapped(f, y)).Values;
    }
  }

  ghost predicate Given<Q(!new), K, V>(f: Q -> Option<(K, V)>, qs: seq<Q>, v: V) {
    exists q :: q in qs && f(q).Some? && f(q).value.1 == v
  }

  lemma AllValues<Q(!new), K(!new), V(!new)>(f: Q -> Option<(K, V)>, qs: seq<Q>, other: seq<Q>)
    requires Backing(f, qs) && forall q :: q in other <==> q in qs
    ensures forall v :: v in Outcome(Mapped(f, other)).Values <==> Given(f, qs, v)
  {
    var es := Mapped(f, other);
    forall v ensures v in Outcome(es).Values <==> Given(f, qs, v) {
      if v in Outcome(es).Values {
        var k :| k in Outcome(es) && Outcome(es)[k] == v;
        var i := EarliestExists(es, k);
        assert other[i] in qs;
      }
      if Given(f, qs, v) {
        SoleValue(f, qs, other, v);
      }
    }
  }

  lemma SoleValue<Q(!new), K(!new), V>(f: Q -> Option<(K, V)>, qs: seq<Q>, other: seq<Q>, v: V)
    requires HasSole(f, qs, v) && forall q :: q in other <==> q in qs
    ensures v in Outcome(Mapped(f, other)).Values
  {
    var a :| Sole(f, qs, a) && f(a).value.1 == v;
    var es, k := Mapped(f, other), f(a).value.0;
    var n :| 0 <= n < |other| && other[n] == a;
    assert Names(es, n, k);
    var i := FindEarliest(es, n, k);
    EarliestDecides(es, i, k);
    assert other[i] in qs && !Clash(f, a, other[i]);
    assert Outcome(es)[k] == v;
  }

  /** The order that takes the requests for one value last: without a sole one, that value is lost. */
  lemma MovedLast<Q(!new), K(!new), V(!new)>(f: Q -> Option<(K, V)>, qs: seq<Q>, v: V) returns (y: seq<Q>)
    requires !HasSole(f, qs, v)
    ensures multiset(y) == multiset(qs) && v !in Outcome(Mapped(f, y)).Values
  {
    var gives := (q: Q) => f(q).Some? && f(q).value.1 == v;
    var others := (q: Q) => !gives(q);
    var front := Select(others, qs);
    SelectSplits(others, gives, qs);
    y := front + Select(gives, qs);
    var es := Mapped(f, y);
    if v in Outcome(es).Values {
      var k :| k in Outcome(es) && Outcome(es)[k] == v;
      var i := EarliestExists(es, k);
      assert gives(y[i]);
      SameMembers(y, qs);
      assert y[i] in qs && !Sole(f, qs, y[i]);
      var b :| b in qs && Clash(f, y[i], b);
      assert others(b) && b in front;
      var j: nat :| j < |front| && front[j] == b;
      assert Names(es, j, k);
    }
  }
}
