/** Bytes, fixed-width integers and the fixed-size arrays the wire formats are made of. */
module ByteStrings {
  import opened Positional
  import opened Sequences

  type Byte = x: int | 0 <= x < 0x100
  type U32 = x: int | 0 <= x < 0x1_0000_0000
  type U64 = x: int | 0 <= x < 0x1_0000_0000_0000_0000
  type U128 = x: int | 0 <= x < 0x1_0000_0000_0000_0000_0000_0000_0000_0000

  type Bytes = seq<Byte>
  type Digest = s: Bytes | |s| == 32 witness seq(32, _ => 0)
  type PublicKey = s: Bytes | |s| == 33 witness seq(33, _ => 0)
  type ProgramId = s: seq<U32> | |s| == 8 witness seq(8, _ => 0)

  /** A byte-string literal; characters outside Latin-1 do not occur in one. */
  function Ascii(s: string): (b: Bytes)
    ensures |b| == |s|
  {
    seq(|s|, i requires 0 <= i < |s| => s[i] as int % 0x100)
  }

  function Zeros(n: nat): (b: Bytes)
    ensures |b| == n && forall i :: 0 <= i < n ==> b[i] == 0
  {
    seq(n, _ => 0)
  }

  /** A byte-string literal filled up with zeros. */
  function Tag(s: string, n: nat): (b: Bytes)
    requires |s| <= n
    ensures |b| == n
  {
    Ascii(s) + Zeros(n - |s|)
  }

  /** The little-endian bytes of an unsigned integer of `n` bytes. */
  function LittleEndian(v: nat, n: nat): (b: Bytes)
    ensures |b| == n
  {
    Fixed(v, 0x100, n)
  }

  // ---- what stands where in a byte string

  /** The bytes of a literal at the front, and zeros up to place `n`. */
  predicate TextAt(b: Bytes, text: string, n: nat) {
    && |text| <= n <= |b|
    && (forall i :: 0 <= i < |text| ==> b[i] == text[i] as int % 0x100)
    && (forall i :: |text| <= i < n ==> b[i] == 0)
  }

  /** At place `o`, `n` bytes of a number, the least significant first. */
  predicate NumberAt(b: Bytes, o: nat, n: nat, v: nat) {
    o + n <= |b| && forall i :: 0 <= i < n ==> b[o + i] == DigitAt(v, 0x100, i)
  }

  lemma TextIffTag(b: Bytes, text: string, n: nat)
    requires |text| <= n <= |b|
    ensures TextAt(b, text, n) <==> b[0..n] == Tag(text, n)
  {
    if b[0..n] == Tag(text, n) {
      forall i | 0 <= i < n ensures b[i] == Tag(text, n)[i] { assert b[i] == b[0..n][i]; }
    }
  }

  lemma {:induction false} FixedAt(v: nat, b: nat, n: nat, i: nat)
    requires b >= 2 && i < n
    ensures Fixed(v, b, n)[i] == DigitAt(v, b, i)
    decreases i
  {
    if i > 0 {
      FixedAt(v / b, b, n - 1, i - 1);
    }
  }

  lemma NumberIffLittleEndian(b: Bytes, o: nat, n: nat, v: nat)
    requires o + n <= |b|
    ensures NumberAt(b, o, n, v) <==> b[o..o + n] == LittleEndian(v, n)
  {
    forall i | 0 <= i < n ensures LittleEndian(v, n)[i] == DigitAt(v, 0x100, i) && b[o..o + n][i] == b[o + i] {
      FixedAt(v, 0x100, n, i);
    }
  }

  /** The bytes of the `k`-th word start at place `4 * k`, the least significant first. */
  lemma {:induction false} WordByteAt(words: seq<U32>, k: nat, i: nat)
    requires k < |words| && i < 4
    ensures WordBytes(words)[4 * k + i] == DigitAt(words[k], 0x100, i)
  {
    var n := |words| - 1;
    if k < n {
      WordByteAt(words[..n], k, i);
    } else {
      FixedAt(words[k], 0x100, 4, i);
    }
  }

  lemma LittleEndianInjective(v: nat, w: nat, n: nat)
    requires v < Pow(0x100, n) && w < Pow(0x100, n)
    requires LittleEndian(v, n) == LittleEndian(w, n)
    ensures v == w
  {
    ValOfFixed(v, 0x100, n);
    ValOfFixed(w, 0x100, n);
  }

  lemma U128Injective(v: U128, w: U128)
    requires LittleEndian(v, 16) == LittleEndian(w, 16)
    ensures v == w
  {
    assert Pow(0x100, 8) == 0x1_0000_0000_0000_0000;
    PowAdd(0x100, 8, 8);
    LittleEndianInjective(v, w, 16);
  }

  lemma U32Injective(v: U32, w: U32)
    requires LittleEndian(v, 4) == LittleEndian(w, 4)
    ensures v == w
  {
    assert Pow(0x100, 4) == 0x1_0000_0000;
    LittleEndianInjective(v, w, 4);
  }

  /** Each word of a program id as four little-endian bytes. */
  function WordBytes(words: seq<U32>): (b: Bytes)
    ensures |b| == 4 * |words|
  {
    if words == [] then [] else WordBytes(words[..|words| - 1]) + LittleEndian(words[|words| - 1], 4)
  }

  lemma {:induction false} WordBytesInjective(u: seq<U32>, v: seq<U32>)
    requires |u| == |v| && WordBytes(u) == WordBytes(v)
    ensures u == v
  {
    if u != [] {
      var n := |u| - 1;
      ConcatInjective(WordBytes(u[..n]), LittleEndian(u[n], 4), WordBytes(v[..n]), LittleEndian(v[n], 4));
      WordBytesInjective(u[..n], v[..n]);
      U32Injective(u[n], v[n]);
      SameInitLast(u, v);
    }
  }
}
