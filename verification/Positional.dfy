/** Positional number systems: the arithmetic shared by little-endian byte strings,
    32-bit limbs and Base58.  Digit sequences carry the least significant digit first. */
module Positional {

  function Pow(b: nat, n: nat): (p: nat)
    ensures b > 0 ==> p > 0
  {
    if n == 0 then 1 else b * Pow(b, n - 1)
  }

  /** The number a digit sequence stands for. */
  function Val(ds: seq<nat>, b: nat): nat {
    if ds == [] then 0 else ds[0] + b * Val(ds[1..], b)
  }

  /** The shortest digit sequence for `v`: no zero in the most significant place. */
  function Digits(v: nat, b: nat): (ds: seq<nat>)
    requires b >= 2
    ensures Canonical(ds, b)
    ensures v == 0 <==> ds == []
  {
    if v == 0 then [] else
    DivDecreases(v, b);
    [v % b] + Digits(v / b, b)
  }

  /** Exactly `n` digits of `v`; higher places are dropped. */
  function Fixed(v: nat, b: nat, n: nat): (ds: seq<nat>)
    requires b >= 2
    ensures |ds| == n && forall i :: 0 <= i < n ==> ds[i] < b
    decreases n
  {
    if n == 0 then [] else [v % b] + Fixed(v / b, b, n - 1)
  }

  /** The digit of `v` in place `i`, counted from the least significant. */
  function DigitAt(v: nat, b: nat, i: nat): nat
    requires b >= 2
    decreases i
  {
    if i == 0 then v % b else DigitAt(v / b, b, i - 1)
  }

  predicate Canonical(ds: seq<nat>, b: nat) {
    && (forall i :: 0 <= i < |ds| ==> ds[i] < b)
    && (ds != [] ==> ds[|ds| - 1] != 0)
  }

  function Rev<T>(s: seq<T>): (r: seq<T>)
    ensures |r| == |s| && forall i :: 0 <= i < |s| ==> r[i] == s[|s| - 1 - i]
  {
    seq(|s|, i requires 0 <= i < |s| => s[|s| - 1 - i])
  }

  lemma RevPush<T>(s: seq<T>, x: T)
    ensures Rev(s + [x]) == [x] + Rev(s)
  {}

  lemma RevRev<T>(s: seq<T>)
    ensures Rev(Rev(s)) == s
  {}

  lemma MulMonotonic(b: nat, x: nat, y: nat)
    requires x <= y
    ensures b * x <= b * y
  {
    assert b * y == b * x + b * (y - x);
  }

  lemma Distribute(a: int, x: int, y: int)
    ensures a * (x + y) == a * x + a * y
  {}

  lemma MulAssociative(a: int, x: int, y: int)
    ensures a * (x * y) == (a * x) * y
  {}

  lemma LessOfMulLess(b: nat, x: nat, y: nat)
    requires b * x < b * y
    ensures x < y
  {
    if y <= x {
      MulMonotonic(b, y, x);
    }
  }

  lemma DivisionTheorem(v: nat, b: nat)
    requires b >= 1
    ensures 0 <= v % b < b && v == v % b + b * (v / b)
  {}

  /** Quotient and remainder are determined by the division equation. */
  lemma QuotientUnique(b: nat, x: nat, y: nat, r: nat, q: nat)
    requires x < b && r < b && x + b * y == r + b * q
    ensures x == r && y == q
  {
    if y < q {
      MulMonotonic(b, y + 1, q);
    } else if q < y {
      MulMonotonic(b, q + 1, y);
    }
  }

  lemma DivModUnique(b: nat, x: nat, y: nat)
    requires x < b
    ensures (x + b * y) / b == y && (x + b * y) % b == x
  {
    var v := x + b * y;
    DivisionTheorem(v, b);
    QuotientUnique(b, x, y, v % b, v / b);
  }

  /** Dividing by `a` and then by `b` divides by their product. */
  lemma QuotientTwice(v: nat, a: nat, b: nat)
    requires a >= 2 && b >= 1
    ensures a * b > 0 && v / (a * b) == v / a / b
  {
    var q, r := v / a / b, v / a % b;
    DivisionTheorem(v, a);
    DivisionTheorem(v / a, b);
    Recompose(v, a, b, v % a, v / a, q, r);
    OneMoreDigit(v % a, r, b, a);
    MulMonotonic(a, 1, b);
    DivModUnique(a * b, v % a + a * r, q);
  }

  /** It counts the `i`-th power of the base. */
  lemma {:induction false} DigitCountsPower(v: nat, b: nat, i: nat)
    requires b >= 2
    ensures DigitAt(v, b, i) == v / Pow(b, i) % b
    decreases i
  {
    if i > 0 {
      DigitCountsPower(v / b, b, i - 1);
      QuotientTwice(v, b, Pow(b, i - 1));
      assert Pow(b, i) == b * Pow(b, i - 1);
    }
  }

  lemma Recompose(v: nat, a: nat, b: nat, s: nat, m: nat, q: nat, r: nat)
    requires v == s + a * m && m == r + b * q
    ensures v == (s + a * r) + (a * b) * q
  {
    Distribute(a, r, b * q);
    MulAssociative(a, b, q);
  }

  lemma DivDecreases(v: nat, b: nat)
    requires v > 0 && b >= 2
    ensures v / b < v
  {
    DivisionTheorem(v, b);
    MulMonotonic(v / b, 2, b);
  }

  lemma DivBelow(v: nat, b: nat, p: nat)
    requires b >= 2 && v < b * p
    ensures v / b < p
  {
    DivisionTheorem(v, b);
    LessOfMulLess(b, v / b, p);
  }

  lemma {:induction false} ValOfDigits(v: nat, b: nat)
    requires b >= 2
    ensures Val(Digits(v, b), b) == v
  {
    if v != 0 {
      DivDecreases(v, b);
      ValOfDigits(v / b, b);
      DivisionTheorem(v, b);
    }
  }

  lemma {:induction false} ValOfFixed(v: nat, b: nat, n: nat)
    requires b >= 2 && v < Pow(b, n)
    ensures Val(Fixed(v, b, n), b) == v
    decreases n
  {
    if n != 0 {
      DivBelow(v, b, Pow(b, n - 1));
      ValOfFixed(v / b, b, n - 1);
      DivisionTheorem(v, b);
    }
  }

  lemma {:induction false} CanonicalIsPositive(ds: seq<nat>, b: nat)
    requires b >= 2 && Canonical(ds, b) && ds != []
    ensures Val(ds, b) > 0
  {
    if |ds| > 1 {
      CanonicalIsPositive(ds[1..], b);
      assert b * Val(ds[1..], b) > 0;
    }
  }

  /** A canonical digit sequence is the only one for its number. */
  lemma {:induction false} DigitsOfVal(ds: seq<nat>, b: nat)
    requires b >= 2 && Canonical(ds, b)
    ensures Digits(Val(ds, b), b) == ds
  {
    if ds != [] {
      DigitsOfVal(ds[1..], b);
      CanonicalIsPositive(ds, b);
      DivModUnique(b, ds[0], Val(ds[1..], b));
    }
  }

  lemma OneMoreDigit(x: nat, v: nat, p: nat, b: nat)
    requires x < b && v < p
    ensures x + b * v < b * p
  {
    MulMonotonic(b, v + 1, p);
    Distribute(b, v, 1);
  }

  /** `n` digits hold a number below `b^n`. */
  lemma {:induction false} ValBelow(ds: seq<nat>, b: nat)
    requires b >= 2 && forall i :: 0 <= i < |ds| ==> ds[i] < b
    ensures Val(ds, b) < Pow(b, |ds|)
  {
    if ds != [] {
      ValBelow(ds[1..], b);
      OneMoreDigit(ds[0], Val(ds[1..], b), Pow(b, |ds| - 1), b);
    }
  }

  /** A canonical sequence of `n` digits stands for at least `b^(n-1)`. */
  lemma {:induction false} ValAtLeast(ds: seq<nat>, b: nat)
    requires b >= 2 && Canonical(ds, b) && ds != []
    ensures Val(ds, b) >= Pow(b, |ds| - 1)
  {
    if |ds| == 1 {
      assert Val(ds[1..], b) == 0;
      assert Val(ds, b) == ds[0];
    } else {
      ValAtLeast(ds[1..], b);
      MulMonotonic(b, Pow(b, |ds| - 2), Val(ds[1..], b));
    }
  }

  lemma {:induction false} PowAdd(b: nat, m: nat, n: nat)
    ensures Pow(b, m + n) == Pow(b, m) * Pow(b, n)
  {
    if m != 0 {
      PowAdd(b, m - 1, n);
      assert b * (Pow(b, m - 1) * Pow(b, n)) == (b * Pow(b, m - 1)) * Pow(b, n);
    }
  }
}
