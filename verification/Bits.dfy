/** Unsigned machine words as numbers, and the bit strings they spell, most significant bit first. */
module Bits {
  import opened Positional
  import opened Sequences

  /** Bitwise or, bit by bit. */
  function Or(x: nat, y: nat): nat {
    if x == 0 && y == 0 then 0
    else 2 * Or(x / 2, y / 2) + if x % 2 == 1 || y % 2 == 1 then 1 else 0
  }

  /** Bitwise and, bit by bit. */
  function And(x: nat, y: nat): nat {
    if x == 0 || y == 0 then 0
    else 2 * And(x / 2, y / 2) + if x % 2 == 1 && y % 2 == 1 then 1 else 0
  }

  /** `x << k` on a 32-bit word: bits shifted past the top are lost. */
  function Shl(x: nat, k: nat): (r: nat)
    ensures r < 0x1_0000_0000
  {
    x * Pow(2, k) % 0x1_0000_0000
  }

  function Shr(x: nat, k: nat): nat {
    x / Pow(2, k)
  }

  /** The low `w` bits of `x`. */
  function Low(x: nat, w: nat): (b: seq<bool>)
    ensures |b| == w
  {
    if w == 0 then [] else Low(x / 2, w - 1) + [x % 2 == 1]
  }

  /** The number a bit string spells. */
  function Num(b: seq<bool>): (x: nat) {
    if b == [] then 0 else 2 * Num(b[..|b| - 1]) + if b[|b| - 1] then 1 else 0
  }

  /** The `w`-bit items of `vs`, laid end to end. */
  function Stream(vs: seq<nat>, w: nat): (b: seq<bool>)
    ensures |b| == w * |vs|
  {
    if vs == [] then [] else Low(vs[0], w) + Stream(vs[1..], w)
  }

  /** A bit string cut into `w`-bit items; an incomplete last item is dropped. */
  function Group(b: seq<bool>, w: nat): (vs: seq<nat>)
    requires w > 0
    ensures |vs| == |b| / w
    decreases |b|
  {
    if |b| < w then (QuotientStep(w, |b|, 0); [])
    else (QuotientStep(w, |b| - w, 1); [Num(b[..w])] + Group(b[w..], w))
  }

  lemma QuotientStep(w: nat, x: nat, k: nat)
    requires w > 0
    ensures (x + w * k) / w == x / w + k
    ensures x < w ==> x / w == 0
  {
    DivisionTheorem(x, w);
    Distribute(w, x / w, k);
    DivModUnique(w, x % w, x / w + k);
    if x < w {
      DivModUnique(w, x, 0);
    }
  }

  // ---- or and and on disjoint or masked words

  lemma {:induction false} OrDisjoint(x: nat, y: nat, k: nat)
    requires y < Pow(2, k)
    ensures Or(Pow(2, k) * x, y) == Pow(2, k) * x + y
    decreases k
  {
    if k == 0 {
      OrZero(x);
    } else {
      var p := Pow(2, k - 1);
      assert Pow(2, k) * x == 2 * (p * x);
      OrDisjoint(x, y / 2, k - 1);
    }
  }

  lemma {:induction false} OrZero(x: nat)
    ensures Or(x, 0) == x
  {
    if x != 0 {
      OrZero(x / 2);
    }
  }

  lemma {:induction false} AndMask(x: nat, k: nat)
    ensures And(x, Pow(2, k) - 1) == x % Pow(2, k)
    decreases k
  {
    if k > 0 {
      var p := Pow(2, k - 1);
      HalfOfMod(x, p);
      AndMask(x / 2, k - 1);
      AndOdd(x, p);
      assert Pow(2, k) == 2 * p;
    }
  }

  lemma AndOdd(x: nat, p: nat)
    requires p > 0
    ensures And(x, 2 * p - 1) == 2 * And(x / 2, p - 1) + x % 2
  {
    assert (2 * p - 1) / 2 == p - 1 && (2 * p - 1) % 2 == 1;
  }

  lemma HalfOfMod(x: nat, p: nat)
    requires p > 0
    ensures x % (2 * p) == 2 * ((x / 2) % p) + x % 2
    ensures x / (2 * p) == (x / 2) / p
  {
    var q, r := (x / 2) / p, (x / 2) % p;
    assert x / 2 == p * q + r;
    assert x == (2 * r + x % 2) + (2 * p) * q;
    DivModUnique(2 * p, 2 * r + x % 2, q);
  }

  // ---- bit strings of sums, quotients and remainders

  lemma {:induction false} LowSplit(x: nat, m: nat, k: nat)
    ensures Low(x, m + k) == Low(x / Pow(2, k), m) + Low(x, k)
    decreases k
  {
    if k > 0 {
      LowSplit(x / 2, m, k - 1);
      HalfOfMod(x, Pow(2, k - 1));
    }
  }

  lemma {:induction false} LowOfMod(x: nat, n: nat, w: nat)
    requires w <= n
    ensures Low(x % Pow(2, n), w) == Low(x, w)
    decreases w
  {
    if w > 0 {
      HalfOfMod(x, Pow(2, n - 1));
      LowOfMod(x / 2, n - 1, w - 1);
    }
  }

  /** A high part shifted up by `k` and a low part of `k` bits concatenate. */
  lemma LowConcat(x: nat, y: nat, m: nat, k: nat)
    requires k > 0 && y < Pow(2, k)
    ensures Low(Pow(2, k) * x + y, m + k) == Low(x, m) + Low(y, k)
  {
    var z := Pow(2, k) * x + y;
    LowSplit(z, m, k);
    assert Pow(2, k) >= 2;
    DivModUnique(Pow(2, k), y, x);
    LowOfMod(z, k, k);
  }

  lemma {:induction false} NumOfLow(x: nat, w: nat)
    ensures Num(Low(x, w)) == x % Pow(2, w)
    decreases w
  {
    if w > 0 {
      HalfOfMod(x, Pow(2, w - 1));
      NumOfLow(x / 2, w - 1);
      assert Low(x, w)[..w - 1] == Low(x / 2, w - 1);
    }
  }

  lemma {:induction false} LowOfNum(b: seq<bool>)
    ensures Low(Num(b), |b|) == b && Num(b) < Pow(2, |b|)
  {
    if b != [] {
      LowOfNum(b[..|b| - 1]);
    }
  }

  lemma {:induction false} LowZero(w: nat)
    ensures Low(0, w) == seq(w, _ => false)
  {
    if w > 0 {
      LowZero(w - 1);
    }
  }

  // ---- streams and groups undo each other

  lemma {:induction false} StreamAppend(us: seq<nat>, vs: seq<nat>, w: nat)
    ensures Stream(us + vs, w) == Stream(us, w) + Stream(vs, w)
  {
    if us == [] {
      assert us + vs == vs;
    } else {
      StreamAppend(us[1..], vs, w);
      TailOfConcat(us, vs);
      Associative(Low(us[0], w), Stream(us[1..], w), Stream(vs, w));
    }
  }

  /** Grouping a stream of `w`-bit items gives the items back, whatever short tail follows. */
  lemma {:induction false} GroupOfStream(vs: seq<nat>, rest: seq<bool>, w: nat)
    requires w > 0 && |rest| < w && forall i :: 0 <= i < |vs| ==> vs[i] < Pow(2, w)
    ensures Group(Stream(vs, w) + rest, w) == vs
  {
    if vs != [] {
      GroupOfStream(vs[1..], rest, w);
      Associative(Low(vs[0], w), Stream(vs[1..], w), rest);
      GroupCons(Low(vs[0], w), Stream(vs[1..], w) + rest, w);
      NumOfLow(vs[0], w);
      LessThanIsMod(vs[0], Pow(2, w));
    }
  }

  lemma GroupCons(item: seq<bool>, rest: seq<bool>, w: nat)
    requires w > 0 && |item| == w
    ensures Group(item + rest, w) == [Num(item)] + Group(rest, w)
  {
    assert (item + rest)[..w] == item && (item + rest)[w..] == rest;
  }

  lemma LessThanIsMod(x: nat, p: nat)
    requires x < p
    ensures x % p == x
  {
    if p >= 2 {
      DivModUnique(p, x, 0);
    }
  }

  /** Streaming the groups of a bit string gives it back up to the last complete group. */
  lemma {:induction false} StreamOfGroup(b: seq<bool>, w: nat)
    requires w > 0
    ensures |Stream(Group(b, w), w)| <= |b| < |Stream(Group(b, w), w)| + w
    ensures Stream(Group(b, w), w) == b[..|Stream(Group(b, w), w)|]
    ensures forall i :: 0 <= i < |Group(b, w)| ==> Group(b, w)[i] < Pow(2, w)
    decreases |b|
  {
    if |b| >= w {
      StreamOfGroup(b[w..], w);
      LowOfNum(b[..w]);
      assert Group(b, w)[1..] == Group(b[w..], w);
    }
  }
}
