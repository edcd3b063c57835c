/** Base58, as account ids are written: the in-place digit loop of the tools, the divmod loop of the
    verification script, and a decoder that shows nothing is lost. */
module Base58 {
  import opened ByteStrings
  import opened Positional
  import opened Sequences
  import opened Wrappers

  // ---- the Bitcoin alphabet, as ranges

  function Symbol(d: nat): (c: Byte)
    requires d < 58
  {
    if d < 9 then d + 49
    else if d < 17 then d + 56
    else if d < 22 then d + 57
    else if d < 33 then d + 58
    else if d < 44 then d + 64
    else d + 65
  }

  function Lookup(c: Byte): Option<nat> {
    if 49 <= c <= 57 then Some(c - 49)
    else if 65 <= c <= 72 then Some(c - 56)
    else if 74 <= c <= 78 then Some(c - 57)
    else if 80 <= c <= 90 then Some(c - 58)
    else if 97 <= c <= 107 then Some(c - 64)
    else if 109 <= c <= 122 then Some(c - 65)
    else None
  }

  /** The constant table of the source. */
  method Alphabet() returns (t: Bytes)
    ensures |t| == 58 && forall i :: 0 <= i < 58 ==> t[i] == Symbol(i)
  {
    var a := Row("123456789ABCDEFGH", 0);
    var b := Row("JKLMNPQRSTUVWXYZ", 17);
    var c := Row("abcdefghijkmnopqrstuvwxyz", 33);
    t := a + b + c;
  }

  /** A stretch of the table. */
  method Row(s: string, first: nat) returns (r: Bytes)
    requires first + |s| <= 58 && forall i :: 0 <= i < |s| ==> s[i] as int == Symbol(first + i)
    ensures |r| == |s| && forall i :: 0 <= i < |s| ==> r[i] == Symbol(first + i)
  {
    r := Ascii(s);
  }

  lemma SymbolLookup(d: nat)
    requires d < 58
    ensures Lookup(Symbol(d)) == Some(d) && (Symbol(d) == 49 <==> d == 0)
  {}

  // ---- what the text is: one '1' per leading zero byte, then the big-endian value in base 58

  /** The number the bytes spell, most significant byte first. */
  function BigEndian(x: Bytes): nat {
    Val(Rev(x), 0x100)
  }

  function LeadingZeros(x: seq<nat>): (n: nat)
    ensures n <= |x| && (forall i :: 0 <= i < n ==> x[i] == 0) && (n < |x| ==> x[n] != 0)
  {
    if x == [] || x[0] != 0 then 0 else 1 + LeadingZeros(x[1..])
  }

  function Symbols(ds: seq<nat>): (s: Bytes)
    requires forall i :: 0 <= i < |ds| ==> ds[i] < 58
    ensures |s| == |ds|
  {
    seq(|ds|, i requires 0 <= i < |ds| => Symbol(ds[i]))
  }

  function Ones(n: nat): (s: Bytes)
    ensures |s| == n
  {
    seq(n, _ => 49)
  }

  function Encoded(x: Bytes): Bytes {
    Ones(LeadingZeros(x)) + Symbols(Rev(Digits(BigEndian(x), 58)))
  }

  lemma BigEndianStep(x: Bytes, b: Byte)
    ensures BigEndian(x + [b]) == b as nat + 0x100 * BigEndian(x)
  {
    RevPush(x, b);
    assert ([b] + Rev(x))[1..] == Rev(x);
  }

  lemma BigEndianPrefix(x: Bytes, i: nat)
    requires i < |x|
    ensures BigEndian(x[..i + 1]) == x[i] as nat + 0x100 * BigEndian(x[..i])
  {
    BigEndianStep(x[..i], x[i]);
    assert x[..i + 1] == x[..i] + [x[i]];
  }

  // ---- the in-place loop

  /** Multiply by 256 and add: what one pass over the digits computes. */
  function MulAdd(ds: seq<nat>, carry: nat): seq<nat> {
    if ds == [] then Digits(carry, 58)
    else [(carry + 0x100 * ds[0]) % 58] + MulAdd(ds[1..], (carry + 0x100 * ds[0]) / 58)
  }

  lemma {:induction false} MulAddDigits(n: nat, carry: nat)
    ensures MulAdd(Digits(n, 58), carry) == Digits(carry + 0x100 * n, 58)
  {
    if n != 0 {
      var q, r := n / 58, n % 58;
      var v := carry + 0x100 * r;
      DivDecreases(n, 58);
      DivisionTheorem(n, 58);
      DivisionTheorem(v, 58);
      MulAddDigits(q, v / 58);
      Carried(n, carry, q, r, v % 58, v / 58);
    }
  }

  lemma Carried(n: nat, carry: nat, q: nat, r: nat, low: nat, high: nat)
    requires n == r + 58 * q && carry + 0x100 * r == low + 58 * high && low < 58
    ensures (carry + 0x100 * n) % 58 == low && (carry + 0x100 * n) / 58 == high + 0x100 * q
  {
    assert carry + 0x100 * n == low + 58 * (high + 0x100 * q);
    DivModUnique(58, low, high + 0x100 * q);
  }

  /** One byte of input: a pass over the digits held so far, then the digits the carry still needs.
      The carry never exceeds a byte. */
  method AddByte(held: seq<nat>, byte: Byte) returns (digits: seq<nat>)
    requires forall j :: 0 <= j < |held| ==> held[j] < 58
    ensures digits == MulAdd(held, byte)
  {
    digits := held;
    var carry: nat := byte;
    var k := 0;
    while k < |digits|
      invariant 0 <= k <= |digits| == |held| && carry <= 255
      invariant digits[k..] == held[k..]
      invariant digits[..k] + MulAdd(held[k..], carry) == MulAdd(held, byte)
    {
      var v := carry + digits[k] * 0x100;
      MulAddStep(digits[..k], held, k, carry);
      UpdateAt(digits, k, v % 58);
      digits := digits[k := v % 58];
      carry := v / 58;
      k := k + 1;
    }
    assert digits[..k] == digits && held[k..] == [];
    while carry > 0
      invariant digits + Digits(carry, 58) == MulAdd(held, byte)
      decreases carry
    {
      DivDecreases(carry, 58);
      PushDigit(digits, carry);
      digits := digits + [carry % 58];
      carry := carry / 58;
    }
  }

  lemma MulAddStep(done: seq<nat>, held: seq<nat>, k: nat, carry: nat)
    requires k < |held|
    ensures var v := carry + 0x100 * held[k];
      done + MulAdd(held[k..], carry) == (done + [v % 58]) + MulAdd(held[k + 1..], v / 58)
  {
    assert held[k..][0] == held[k] && held[k..][1..] == held[k + 1..];
  }

  lemma PushDigit(low: seq<nat>, n: nat)
    requires n > 0
    ensures low + Digits(n, 58) == (low + [n % 58]) + Digits(n / 58, 58)
  {
    DivDecreases(n, 58);
    Associative(low, [n % 58], Digits(n / 58, 58));
  }

  method Encode(input: Bytes) returns (out: Bytes)
    ensures out == Encoded(input)
  {
    var t := Alphabet();
    var digits: seq<nat> := [];
    var i := 0;
    while i < |input|
      invariant 0 <= i <= |input|
      invariant digits == Digits(BigEndian(input[..i]), 58)
    {
      digits := AddByte(digits, input[i]);
      MulAddDigits(BigEndian(input[..i]), input[i]);
      BigEndianPrefix(input, i);
      i := i + 1;
    }
    assert input[..i] == input;
    var zeros := 0;
    while zeros < |input| && input[zeros] == 0
      invariant zeros <= |input| && forall j :: 0 <= j < zeros ==> input[j] == 0
    {
      zeros := zeros + 1;
    }
    LeadingZerosUnique(input, zeros);
    var text := WriteDigits(t, digits);
    out := Ones(zeros) + text;
  }

  /** The digits' characters, most significant first. */
  method WriteDigits(t: Bytes, digits: seq<nat>) returns (out: Bytes)
    requires |t| == 58 && forall i :: 0 <= i < 58 ==> t[i] == Symbol(i)
    requires forall j :: 0 <= j < |digits| ==> digits[j] < 58
    ensures out == Symbols(Rev(digits))
  {
    out := [];
    var m := |digits|;
    while m > 0
      invariant 0 <= m <= |digits| && out == Symbols(Rev(digits[m..]))
    {
      m := m - 1;
      assert Rev(digits[m..]) == Rev(digits[m + 1..]) + [digits[m]];
      out := out + [t[digits[m]]];
    }
    assert digits[0..] == digits;
  }

  lemma {:induction false} LeadingZerosUnique(x: seq<nat>, n: nat)
    requires n <= |x| && (forall i :: 0 <= i < n ==> x[i] == 0) && (n < |x| ==> x[n] != 0)
    ensures LeadingZeros(x) == n
  {}

  // ---- the divmod loop of the verification script

  method EncodeByDivmod(b: Bytes) returns (out: Bytes)
    ensures out == Encoded(b)
  {
    var t := Alphabet();
    var n := BigEndian(b);
    var o: Bytes := [];
    ghost var all, k := Digits(n, 58), 0;
    while n > 0
      invariant 0 <= k <= |all| && Digits(n, 58) == all[k..] && o == Symbols(Rev(all[..k]))
      decreases n
    {
      DivDecreases(n, 58);
      var r := n % 58;
      NextDigit(all, k, r);
      o := [t[r]] + o;
      n := n / 58;
      k := k + 1;
    }
    assert all[..k] == all;
    out := Ones(LeadingZeros(b)) + o;
  }

  lemma NextDigit(all: seq<nat>, k: nat, d: nat)
    requires d < 58 && k < |all| && all[k] == d && forall j :: 0 <= j < |all| ==> all[j] < 58
    ensures Symbols(Rev(all[..k + 1])) == [Symbol(d)] + Symbols(Rev(all[..k]))
    ensures all[k + 1..] == all[k..][1..]
  {
    SplitAt(all, k);
    RevPush(all[..k], d);
  }

  // ---- nothing is lost

  function CountOnes(s: Bytes): (n: nat)
    ensures n <= |s|
  {
    if s == [] || s[0] != 49 then 0 else 1 + CountOnes(s[1..])
  }

  predicate AllValid(s: Bytes) {
    forall i :: 0 <= i < |s| ==> Lookup(s[i]).Some?
  }

  function Values(s: Bytes): (ds: seq<nat>)
    requires AllValid(s)
    ensures |ds| == |s|
  {
    seq(|s|, i requires 0 <= i < |s| => Lookup(s[i]).value)
  }

  /** A zero byte per leading '1', then the shortest big-endian form of the rest's value. */
  function Decoded(s: Bytes): Option<Bytes> {
    var n := CountOnes(s);
    if !AllValid(s) then None
    else Some(Zeros(n) + Rev(Digits(Val(Rev(Values(s[n..])), 58), 0x100)))
  }

  /** Every byte string comes back from its text, leading zeros included. */
  lemma Lossless(x: Bytes)
    ensures Decoded(Encoded(x)) == Some(x)
  {
    var z, n := LeadingZeros(x), BigEndian(x);
    var ds := Rev(Digits(n, 58));
    DecodedText(z, ds);
    RevRev(Digits(n, 58));
    ValOfDigits(n, 58);
    ShortestBytes(x);
    SplitSeq(x, z);
    assert Zeros(z) == x[..z];
  }

  lemma DecodedText(z: nat, ds: seq<nat>)
    requires forall i :: 0 <= i < |ds| ==> ds[i] < 58
    requires ds != [] ==> ds[0] != 0
    ensures Decoded(Ones(z) + Symbols(ds)) == Some(Zeros(z) + Rev(Digits(Val(Rev(ds), 58), 0x100)))
  {
    SymbolsValid(ds);
    CountOnesOfText(z, ds);
    assert (Ones(z) + Symbols(ds))[z..] == Symbols(ds);
  }

  /** Past its leading zeros, a byte string is the shortest big-endian form of its value. */
  lemma ShortestBytes(x: Bytes)
    ensures Rev(Digits(BigEndian(x), 0x100)) == x[LeadingZeros(x)..]
  {
    var tail := x[LeadingZeros(x)..];
    StripZeros(x);
    assert tail != [] ==> tail[0] == x[LeadingZeros(x)];
    ShortestDigits(tail);
  }

  lemma ShortestDigits(tail: Bytes)
    requires tail != [] ==> tail[0] != 0
    ensures Rev(Digits(BigEndian(tail), 0x100)) == tail
  {
    DigitsOfVal(Rev(tail), 0x100);
    RevRev(tail);
  }

  lemma SymbolsValid(ds: seq<nat>)
    requires forall i :: 0 <= i < |ds| ==> ds[i] < 58
    ensures AllValid(Symbols(ds)) && Values(Symbols(ds)) == ds
  {
    forall i | 0 <= i < |ds| ensures Lookup(Symbol(ds[i])) == Some(ds[i]) { SymbolLookup(ds[i]); }
  }

  lemma {:induction false} CountOnesOfText(z: nat, ds: seq<nat>)
    requires forall i :: 0 <= i < |ds| ==> ds[i] < 58
    requires ds != [] ==> ds[0] != 0
    ensures CountOnes(Ones(z) + Symbols(ds)) == z
    decreases z
  {
    var s := Ones(z) + Symbols(ds);
    if z > 0 {
      CountOnesOfText(z - 1, ds);
      assert s[1..] == Ones(z - 1) + Symbols(ds);
    } else if ds != [] {
      SymbolLookup(ds[0]);
    }
  }

  /** Leading zero bytes do not change the value. */
  lemma {:induction false} StripZeros(x: Bytes)
    ensures BigEndian(x[LeadingZeros(x)..]) == BigEndian(x)
  {
    if x != [] && x[0] == 0 {
      StripZeros(x[1..]);
      assert x[1..][LeadingZeros(x[1..])..] == x[LeadingZeros(x)..];
      assert Rev(x) == Rev(x[1..]) + [0];
      ValTopZero(Rev(x[1..]), 0x100);
    }
  }

  lemma {:induction false} ValTopZero(ds: seq<nat>, b: nat)
    ensures Val(ds + [0], b) == Val(ds, b)
  {
    if ds == [] {
      assert (ds + [0])[1..] == [];
    } else {
      ValTopZero(ds[1..], b);
      assert (ds + [0])[1..] == ds[1..] + [0];
    }
  }

  /** Different byte strings have different texts. */
  lemma Injective(x: Bytes, y: Bytes)
    requires Encoded(x) == Encoded(y)
    ensures x == y
  {
    Lossless(x);
    Lossless(y);
  }

  // ---- how long the text of a 32-byte id is

  lemma {:induction false} PowMonotonic(b: nat, m: nat, n: nat)
    requires b >= 1 && m <= n
    ensures Pow(b, m) <= Pow(b, n)
  {
    if m < n {
      PowMonotonic(b, m, n - 1);
      MulMonotonic(Pow(b, n - 1), 1, b);
    }
  }

  /** 58^(m+12) >= 256^m up to m = 32, so `m` bytes never need more than `m + 12` digits. */
  lemma {:induction false} TwelveExtra(m: nat)
    requires m <= 32
    ensures Pow(58, m + 12) >= Pow(0x100, m)
    decreases 32 - m
  {
    if m == 32 {
      TopPowers();
    } else {
      TwelveExtra(m + 1);
      OneLess(Pow(58, m + 12), Pow(0x100, m));
    }
  }

  lemma OneLess(x: nat, y: nat)
    requires 58 * x >= 0x100 * y
    ensures x >= y
  {}

  lemma TopPowers()
    ensures Pow(58, 44) >= Pow(0x100, 32)
  {
    var p, q := Pow(58, 11), Pow(0x100, 8);
    assert p >= q by {
      assert Pow(58, 11) == 24986644000165537792 && Pow(0x100, 8) == 0x1_0000_0000_0000_0000;
    }
    PowAdd(58, 11, 11);
    PowAdd(58, 22, 22);
    PowAdd(0x100, 8, 8);
    PowAdd(0x100, 16, 16);
    MulBelow(q, p);
    MulBelow(q * q, p * p);
  }

  lemma MulBelow(x: nat, y: nat)
    requires x <= y
    ensures x * x <= y * y
  {
    MulMonotonic(x, x, y);
    MulMonotonic(y, x, y);
  }

  lemma {:induction false} PowBases(m: nat)
    ensures Pow(58, m) <= Pow(0x100, m)
  {
    if m > 0 {
      PowBases(m - 1);
    }
  }

  /** `m` bytes with a non-zero first byte take at least `m` and at most `m + 12` digits. */
  lemma DigitCount(x: Bytes)
    requires |x| <= 32
    ensures |Digits(BigEndian(x), 58)| <= |x| + 12
    ensures x != [] && x[0] != 0 ==> |Digits(BigEndian(x), 58)| >= |x|
  {
    var n, m := BigEndian(x), |x|;
    var ds := Digits(n, 58);
    var r: seq<nat> := Rev(x);
    ValBelow(r, 0x100);
    ValOfDigits(n, 58);
    TwelveExtra(m);
    if |ds| > m + 12 {
      ValAtLeast(ds, 58);
      PowMonotonic(58, m + 12, |ds| - 1);
    }
    if x != [] && x[0] != 0 && |ds| < m {
      ValAtLeast(r, 0x100);
      ValBelow(ds, 58);
      PowMonotonic(58, |ds|, m - 1);
      PowBases(m - 1);
    }
  }

  /** At no point of encoding 32 bytes are more than 44 digits held, and the text is 32 to 44 characters. */
  lemma IdLength(x: Digest, k: nat)
    requires k <= 32
    ensures |Digits(BigEndian(x[..k]), 58)| <= 44
    ensures 32 <= |Encoded(x)| <= 44
  {
    DigitCount(x[..k]);
    var z := LeadingZeros(x);
    StripZeros(x);
    DigitCount(x[z..]);
  }
}
