/** The Base64 codec that carries credentials in Waku payloads, against section 4 of RFC 4648:
    the octets' bits regrouped by six. */
module Base64 {
  import opened ByteStrings
  import opened Positional
  import opened Bits
  import opened Sequences
  import opened Wrappers

  const PAD: Byte := 61  // '='
  const INVALID: Byte := 255

  datatype DecodeError = InvalidCharacter(c: Byte)

  // ---- the alphabet of Table 1, as ranges

  function Symbol(v: nat): (c: Byte)
    requires v < 64
  {
    if v < 26 then v + 65 else if v < 52 then v + 71 else if v < 62 then v - 4 else if v == 62 then 43 else 47
  }

  function Lookup(c: Byte): (v: Byte)
    ensures v < 64 || v == INVALID
  {
    if 65 <= c <= 90 then c - 65
    else if 97 <= c <= 122 then c - 71
    else if 48 <= c <= 57 then c + 4
    else if c == 43 then 62
    else if c == 47 then 63
    else INVALID
  }

  /** The constant table both functions of the source declare. */
  method Alphabet() returns (t: Bytes)
    ensures |t| == 64 && forall i :: 0 <= i < 64 ==> t[i] == Symbol(i)
  {
    var upper := Row("ABCDEFGHIJKLMNOPQRSTUVWXYZ", 0);
    var lower := Row("abcdefghijklmnopqrstuvwxyz", 26);
    var digits := Row("0123456789", 52);
    t := upper + lower + digits + [43, 47];  // "+/"
  }

  /** A stretch of the table. */
  method Row(s: string, first: nat) returns (r: Bytes)
    requires first + |s| <= 64 && forall i :: 0 <= i < |s| ==> s[i] as int == Symbol(first + i)
    ensures |r| == |s| && forall i :: 0 <= i < |s| ==> r[i] == Symbol(first + i)
  {
    r := Ascii(s);
  }

  function Symbols(vs: seq<nat>): (s: Bytes)
    requires forall i :: 0 <= i < |vs| ==> vs[i] < 64
    ensures |s| == |vs|
  {
    seq(|vs|, i requires 0 <= i < |vs| => Symbol(vs[i]))
  }

  // ---- encoding

  /** Zero bits that complete the last sextet, and padding characters that complete the last quadruple. */
  function ZeroBits(n: nat): nat {
    if n % 3 == 0 then 0 else if n % 3 == 1 then 4 else 2
  }

  function Padding(n: nat): nat {
    if n % 3 == 0 then 0 else 3 - n % 3
  }

  function Repeat<T>(x: T, n: nat): (s: seq<T>)
    ensures |s| == n
  {
    seq(n, _ => x)
  }

  /** The sextets of section 4: the bits of the octets, zero-extended, cut by six. */
  function Sextets(x: Bytes): (vs: seq<nat>)
    ensures forall i :: 0 <= i < |vs| ==> vs[i] < 64
  {
    var b := Stream(x, 8) + Repeat(false, ZeroBits(|x|));
    StreamOfGroup(b, 6);
    assert Pow(2, 6) == 64;
    Group(b, 6)
  }

  function Encoded(x: Bytes): Bytes {
    Symbols(Sextets(x)) + Repeat(PAD, Padding(|x|))
  }

  // ---- decoding

  predicate Skipped(c: Byte) {
    c == PAD || c == 32 || c == 9 || c == 10 || c == 12 || c == 13
  }

  function Significant(s: Bytes): (r: Bytes)
  {
    if s == [] then []
    else
      var n := |s| - 1;
      if Skipped(s[n]) then Significant(s[..n]) else Significant(s[..n]) + [s[n]]
  }

  /** What the text decodes to: its sextets' bits regrouped by eight, an incomplete octet dropped;
      or else the first character outside the alphabet. */
  function Decoded(s: Bytes): Result<Bytes, DecodeError> {
    var t := Significant(s);
    if AllValid(t) then Ok(Octets(Values(t))) else Err(InvalidCharacter(FirstInvalid(t)))
  }

  predicate AllValid(t: Bytes) {
    forall i :: 0 <= i < |t| ==> Lookup(t[i]) != INVALID
  }

  function FirstInvalid(t: Bytes): Byte
    requires !AllValid(t)
  {
    var n := |t| - 1;
    if AllValid(t[..n]) then t[n] else FirstInvalid(t[..n])
  }

  function Values(t: Bytes): (vs: seq<nat>)
    requires AllValid(t)
    ensures |vs| == |t| && forall i :: 0 <= i < |vs| ==> vs[i] < 64
  {
    seq(|t|, i requires 0 <= i < |t| => Lookup(t[i]))
  }

  function Octets(vs: seq<nat>): (x: Bytes) {
    StreamOfGroup(Stream(vs, 6), 8);
    assert Pow(2, 8) == 256;
    Group(Stream(vs, 6), 8)
  }

  // ---- the encoder's chunk loop

  /** The 24-bit group of a chunk, absent octets read as zero. */
  function GroupWord(c: Bytes): nat
    requires 1 <= |c| <= 3
  {
    Or(Or(Shl(c[0], 16), Shl(Octet(c, 1), 8)), Octet(c, 2))
  }

  function Octet(c: Bytes, i: nat): (b: nat)
    ensures b < 256
  {
    if i < |c| then c[i] else 0
  }

  /** One turn of the loop: the four characters of a chunk. */
  method EncodeChunk(t: Bytes, c: Bytes) returns (out: Bytes)
    requires |t| == 64 && forall i :: 0 <= i < 64 ==> t[i] == Symbol(i)
    requires 1 <= |c| <= 3
    ensures out == Encoded(c)
  {
    var n := GroupWord(c);
    Masks(n);
    out := [t[And(Shr(n, 18), 63)]];
    out := out + [t[And(Shr(n, 12), 63)]];
    out := out + [if |c| > 1 then t[And(Shr(n, 6), 63)] else PAD];
    out := out + [if |c| > 2 then t[And(n, 63)] else PAD];
    GroupWordIsSum(c);
    ChunkText(c, [n / 262144 % 64, n / 4096 % 64, n / 64 % 64, n % 64]);
    ChunkSextets(c, n);
  }

  lemma ChunkSextets(c: Bytes, n: nat)
    requires 1 <= |c| <= 3 && n == 65536 * c[0] as int + 256 * Octet(c, 1) + Octet(c, 2)
    ensures Sextets(c) == [n / 262144 % 64, n / 4096 % 64, n / 64 % 64, n % 64][..|c| + 1]
  {
    var all := [n / 262144 % 64, n / 4096 % 64, n / 64 % 64, n % 64];
    QuadStream(n, n / 64, n / 4096, n / 262144);
    ChunkStream(c, n, all);
    SextetsUnique(c, all[..|c| + 1]);
  }

  /** The symbols of a chunk's sextets, with padding in the place of those it does not fill. */
  lemma ChunkText(c: Bytes, all: seq<nat>)
    requires 1 <= |c| <= 3 && |all| == 4 && forall k :: 0 <= k < 4 ==> all[k] < 64
    ensures Symbols(all[..|c| + 1]) + Repeat(PAD, Padding(|c|))
      == [Symbol(all[0]), Symbol(all[1]), if |c| > 1 then Symbol(all[2]) else PAD,
          if |c| > 2 then Symbol(all[3]) else PAD]
  {}

  method Encode(bytes: Bytes) returns (out: Bytes)
    ensures out == Encoded(bytes)
  {
    var t := Alphabet();
    out := [];
    var i := 0;
    while i < |bytes|
      invariant 0 <= i <= |bytes| && (i == |bytes| || i % 3 == 0)
      invariant out == Encoded(bytes[..i])
    {
      var next := if i + 3 <= |bytes| then i + 3 else |bytes|;
      var c := bytes[i..next];
      var quad := EncodeChunk(t, c);
      SliceJoin(bytes, i, next);
      EncodedAppend(bytes[..i], c);
      out := out + quad;
      i := next;
    }
    assert bytes[..i] == bytes;
  }

  lemma SextetsUnique(x: Bytes, vs: seq<nat>)
    requires forall k :: 0 <= k < |vs| ==> vs[k] < 64
    requires Stream(vs, 6) == Stream(x, 8) + Repeat(false, ZeroBits(|x|))
    ensures Sextets(x) == vs
  {
    assert Pow(2, 6) == 64;
    GroupOfStream(vs, [], 6);
    assert Stream(vs, 6) + [] == Stream(vs, 6);
  }

  /** After whole groups, encoding continues where it left off. */
  lemma EncodedAppend(done: Bytes, c: Bytes)
    requires |done| % 3 == 0 && 1 <= |c| <= 3
    ensures Encoded(done + c) == Encoded(done) + Encoded(c)
  {
    var vs, q := Sextets(done), Sextets(c);
    EncodedWhole(done);
    SextetsAppend(done, c);
    SymbolsStep(vs, q, Padding(|c|));
    EncodedPadding(done, c);
  }

  lemma EncodedWhole(done: Bytes)
    requires |done| % 3 == 0
    ensures Encoded(done) == Symbols(Sextets(done))
  {
    WholeGroups(Symbols(Sextets(done)), PAD, |done|);
  }

  lemma EncodedPadding(done: Bytes, c: Bytes)
    requires |done| % 3 == 0 && 1 <= |c| <= 3
    ensures Encoded(done + c) == Symbols(Sextets(done + c)) + Repeat(PAD, Padding(|c|))
  {
    ChunkPadding(|done|, |c|);
    ChunkPadding(0, |c|);
  }

  lemma SextetsAppend(done: Bytes, c: Bytes)
    requires |done| % 3 == 0 && 1 <= |c| <= 3
    ensures Sextets(done + c) == Sextets(done) + Sextets(c)
  {
    var vs, q := Sextets(done), Sextets(c);
    SextetStream(done);
    SextetStream(c);
    WholeGroups(Stream(done, 8), false, |done|);
    BitsStep(vs, q, done, c, Repeat(false, ZeroBits(|c|)));
    ChunkPadding(|done|, |c|);
    SextetsUnique(done + c, vs + q);
  }

  lemma BitsStep(vs: seq<nat>, q: seq<nat>, done: Bytes, c: Bytes, z: seq<bool>)
    requires Stream(vs, 6) == Stream(done, 8) && Stream(q, 6) == Stream(c, 8) + z
    ensures Stream(vs + q, 6) == Stream(done + c, 8) + z
  {
    StreamAppend(vs, q, 6);
    StreamAppend(done, c, 8);
    Associative(Stream(done, 8), Stream(c, 8), z);
  }

  lemma SymbolsStep(vs: seq<nat>, q: seq<nat>, n: nat)
    requires (forall k :: 0 <= k < |vs| ==> vs[k] < 64) && forall k :: 0 <= k < |q| ==> q[k] < 64
    ensures Symbols(vs) + (Symbols(q) + Repeat(PAD, n)) == Symbols(vs + q) + Repeat(PAD, n)
  {
    assert Symbols(vs + q) == Symbols(vs) + Symbols(q);
  }

  lemma WholeGroups<T>(s: seq<T>, x: T, i: nat)
    requires i % 3 == 0
    ensures s + Repeat(x, ZeroBits(i)) == s && s + Repeat(x, Padding(i)) == s
  {}

  lemma ChunkPadding(i: nat, n: nat)
    requires i % 3 == 0 && 1 <= n <= 3
    ensures ZeroBits(i + n) == ZeroBits(n) && Padding(i + n) == 3 - n
  {}

  lemma Masks(n: nat)
    ensures And(Shr(n, 18), 63) == n / 262144 % 64 && And(Shr(n, 12), 63) == n / 4096 % 64
    ensures And(Shr(n, 6), 63) == n / 64 % 64 && And(n, 63) == n % 64
  {
    assert Pow(2, 6) == 64 && Pow(2, 12) == 4096 && Pow(2, 18) == 262144;
    AndMask(n / 262144, 6);
    AndMask(n / 4096, 6);
    AndMask(n / 64, 6);
    AndMask(n, 6);
  }

  lemma GroupWordIsSum(c: Bytes)
    requires 1 <= |c| <= 3
    ensures GroupWord(c) == 65536 * c[0] as int + 256 * Octet(c, 1) + Octet(c, 2)
  {
    var b0: nat, b1, b2 := c[0], Octet(c, 1), Octet(c, 2);
    ShiftedOctets(b0, b1);
    JoinHigh(b0, b1);
    JoinLow(256 * b0 + b1, b2);
  }

  lemma ShiftedOctets(b0: nat, b1: nat)
    requires b0 < 256 && b1 < 256
    ensures Shl(b0, 16) == 65536 * b0 && Shl(b1, 8) == 256 * b1
  {
    assert Pow(2, 8) == 256 && Pow(2, 16) == 65536;
    ShlSmall(b0, 16);
    ShlSmall(b1, 8);
  }

  lemma JoinHigh(b0: nat, b1: nat)
    requires b1 < 256
    ensures Or(65536 * b0, 256 * b1) == 256 * (256 * b0 + b1)
  {
    assert Pow(2, 8) == 256 && Pow(2, 16) == 65536;
    OrDisjoint(b0, 256 * b1, 16);
  }

  lemma JoinLow(m: nat, b2: nat)
    requires b2 < 256
    ensures Or(256 * m, b2) == 256 * m + b2
  {
    assert Pow(2, 8) == 256;
    OrDisjoint(m, b2, 8);
  }

  lemma ShlSmall(x: nat, k: nat)
    requires x * Pow(2, k) < 0x1_0000_0000
    ensures Shl(x, k) == Pow(2, k) * x
  {}

  lemma StreamOfFour(q: seq<nat>, w: nat)
    requires |q| == 4
    ensures Stream(q, w) == Low(q[0], w) + Low(q[1], w) + Low(q[2], w) + Low(q[3], w)
  {
    StreamOfTwo(q[0], q[1], w);
    StreamOfTwo(q[2], q[3], w);
    StreamAppend([q[0], q[1]], [q[2], q[3]], w);
    assert q == [q[0], q[1]] + [q[2], q[3]];
  }

  lemma StreamOfTwo(x: nat, y: nat, w: nat)
    ensures Stream([x], w) == Low(x, w) && Stream([x, y], w) == Low(x, w) + Low(y, w)
  {
    StreamAppend([x], [y], w);
    assert [x, y] == [x] + [y];
  }

  /** Four `w`-bit digits of a word spell the word. */
  lemma FourDigits(n: nat, n1: nat, n2: nat, n3: nat, w: nat)
    requires n1 == n / Pow(2, w) && n2 == n1 / Pow(2, w) && n3 == n2 / Pow(2, w)
    ensures Low(n, w + w + w + w)
      == Low(n3 % Pow(2, w), w) + Low(n2 % Pow(2, w), w) + Low(n1 % Pow(2, w), w) + Low(n % Pow(2, w), w)
  {
    SplitDigit(n, w + w + w, w);
    SplitDigit(n1, w + w, w);
    SplitDigit(n2, w, w);
    LowOfMod(n3, w, w);
  }

  lemma SplitDigit(n: nat, m: nat, w: nat)
    ensures Low(n, m + w) == Low(n / Pow(2, w), m) + Low(n % Pow(2, w), w)
  {
    LowSplit(n, m, w);
    LowOfMod(n, w, w);
  }

  lemma GroupStream(c: Bytes, n: nat, w: nat)
    requires 1 <= |c| <= 3 && w == 8 && n == 65536 * c[0] as int + 256 * Octet(c, 1) + Octet(c, 2)
    ensures Low(n, w + w + w) == Stream(c, w) + Repeat(false, 24 - 8 * |c|)
  {
    var b0: nat, b1, b2 := c[0], Octet(c, 1), Octet(c, 2);
    assert Pow(2, w) == 256 by { assert Pow(2, 8) == 256; }
    LowConcat(256 * b0 + b1, b2, w + w, w);
    LowConcat(b0, b1, w, w);
    LowZero(w);
    ChunkOctets(c, w);
  }

  lemma ChunkOctets(c: Bytes, w: nat)
    requires 1 <= |c| <= 3
    ensures |c| == 1 ==> Stream(c, w) == Low(c[0], w)
    ensures |c| == 2 ==> Stream(c, w) == Low(c[0], w) + Low(c[1], w)
    ensures |c| == 3 ==> Stream(c, w) == Low(c[0], w) + Low(c[1], w) + Low(c[2], w)
  {
    StreamOfTwo(c[0], Octet(c, 1), w);
    if |c| == 1 {
      assert c == [c[0]];
    } else if |c| == 2 {
      assert c == [c[0], c[1]];
    } else {
      StreamOfTwo(c[2], c[2], w);
      StreamAppend([c[0], c[1]], [c[2]], w);
      assert c == [c[0], c[1]] + [c[2]];
    }
  }

  lemma QuadStream(n: nat, n1: nat, n2: nat, n3: nat)
    requires n1 == n / 64 && n2 == n / 4096 && n3 == n / 262144
    ensures Stream([n3 % 64, n2 % 64, n1 % 64, n % 64], 6) == Low(n, 24)
  {
    assert Pow(2, 6) == 64;
    FourDigits(n, n1, n2, n3, 6);
    StreamOfFour([n3 % 64, n2 % 64, n1 % 64, n % 64], 6);
  }

  lemma StreamPrefix(vs: seq<nat>, k: nat)
    requires k <= |vs|
    ensures Stream(vs[..k], 6) == Stream(vs, 6)[..6 * k]
  {
    StreamAppend(vs[..k], vs[k..], 6);
    SplitSeq(vs, k);
    PrefixOfConcat(Stream(vs[..k], 6), Stream(vs[k..], 6));
  }

  /** A chunk of one, two or three octets fills two, three or four sextets with its bits and zeros. */
  lemma ChunkStream(c: Bytes, n: nat, all: seq<nat>)
    requires 1 <= |c| <= 3 && n == 65536 * c[0] as int + 256 * Octet(c, 1) + Octet(c, 2)
    requires |all| == 4 && Stream(all, 6) == Low(n, 24)
    ensures Stream(all[..|c| + 1], 6) == Stream(c, 8) + Repeat(false, ZeroBits(|c|))
  {
    GroupStream(c, n, 8);
    ChunkBits(|c|);
    ChunkPrefix(all, |c| + 1, Stream(c, 8), 24 - 8 * |c|, ZeroBits(|c|));
  }

  lemma ChunkBits(k: nat)
    requires 1 <= k <= 3
    ensures 6 * (k + 1) == 8 * k + ZeroBits(k) && ZeroBits(k) <= 24 - 8 * k
  {}

  lemma ChunkPrefix(all: seq<nat>, k: nat, b: seq<bool>, n: nat, m: nat)
    requires k <= |all| && Stream(all, 6) == b + Repeat(false, n) && 6 * k == |b| + m && m <= n
    ensures Stream(all[..k], 6) == b + Repeat(false, m)
  {
    StreamPrefix(all, k);
    PrefixOfZeros(b, n, m);
  }

  lemma PrefixOfZeros(b: seq<bool>, n: nat, m: nat)
    requires m <= n
    ensures (b + Repeat(false, n))[..|b| + m] == b + Repeat(false, m)
  {}

  // ---- the decoder's accumulator loop

  /** The inverse table: 255 everywhere but at the alphabet's characters. */
  method InverseTable() returns (idx: array<Byte>)
    ensures fresh(idx) && idx.Length == 256 && forall c: Byte {:trigger idx[c]} :: idx[c] == Lookup(c)
  {
    var t := Alphabet();
    idx := new Byte[256](_ => INVALID);
    var i := 0;
    while i < 64
      invariant 0 <= i <= 64
      invariant forall c: Byte {:trigger idx[c]} :: idx[c] == if Lookup(c) < i then Lookup(c) else INVALID
    {
      SymbolLookup(i);
      idx[t[i]] := i;
      i := i + 1;
    }
  }

  lemma SymbolLookup(i: nat)
    requires i < 64
    ensures Lookup(Symbol(i)) == i && forall c: Byte :: Lookup(c) == i ==> c == Symbol(i)
  {}

  /** The accumulator is never masked and its shift drops high bits, yet its low `bits` bits stay exactly
      the bits read and not yet written. */
  method Decode(s: Bytes) returns (r: Result<Bytes, DecodeError>)
    ensures r == Decoded(s)
  {
    var idx := InverseTable();
    var acc: U32 := 0;
    var bits: nat := 0;
    var out: Bytes := [];
    var i := 0;
    NothingRead(s);
    while i < |s|
      invariant 0 <= i <= |s| && (bits == 0 || bits == 2 || bits == 4 || bits == 6)
      invariant forall c: Byte {:trigger idx[c]} :: idx[c] == Lookup(c)
      invariant Pending(s[..i], out, acc, bits)
    {
      var c := s[i];
      NextCharacter(s, i, out, acc, bits);
      if !Skipped(c) {
        var v := idx[c];
        if v == INVALID {
          return Err(InvalidCharacter(c));
        }
        out, acc, bits := Absorb(out, acc, bits, v, s[..i + 1]);
      }
      i := i + 1;
    }
    assert s[..i] == s;
    AllRead(s, out, acc, bits);
    r := Ok(out);
  }

  /** One sextet goes in, and an octet out as soon as eight bits are pending. */
  method Absorb(out: Bytes, acc: U32, bits: nat, v: nat, ghost t: Bytes)
    returns (out': Bytes, acc': U32, bits': nat)
    requires v < 64 && bits <= 6 && AfterSextet(t, out, acc, bits, v)
    ensures Pending(t, out', acc', bits') && bits' == if bits + 6 >= 8 then bits - 2 else bits + 6
  {
    out' := out;
    acc' := Or(Shl(acc, 6), v);
    bits' := bits + 6;
    if bits' >= 8 {
      bits' := bits' - 8;
      out' := PushOctet(out, acc', bits', t);
    }
  }

  method PushOctet(out: Bytes, acc: U32, bits: nat, ghost t: Bytes) returns (out': Bytes)
    requires Pending(t, out, acc, bits + 8)
    ensures Pending(t, out', acc, bits)
  {
    ShiftOut(t, out, acc, bits);
    out' := out + [Shr(acc, bits) % 0x100];
  }

  predicate AfterSextet(t: Bytes, out: Bytes, acc: U32, bits: nat, v: nat) {
    var acc' := Or(Shl(acc, 6), v);
    acc' < 0x1_0000_0000 && Pending(t, out, acc', bits + 6)
  }

  /** What the next character means: skipped, an error, or six more pending bits. */
  lemma NextCharacter(s: Bytes, i: nat, out: Bytes, acc: U32, bits: nat)
    requires i < |s| && bits <= 6 && Pending(s[..i], out, acc, bits)
    ensures Skipped(s[i]) ==> Pending(s[..i + 1], out, acc, bits)
    ensures !Skipped(s[i]) && Lookup(s[i]) == INVALID ==> Decoded(s) == Err(InvalidCharacter(s[i]))
    ensures !Skipped(s[i]) && Lookup(s[i]) != INVALID ==> AfterSextet(s[..i + 1], out, acc, bits, Lookup(s[i]))
  {
    assert s[..i + 1][..i] == s[..i];
    if !Skipped(s[i]) {
      if Lookup(s[i]) == INVALID {
        BitsMeaning(s[..i]);
        DecodedInvalid(s, i);
      } else {
        ShiftIn(s, i, out, acc, bits);
      }
    }
  }

  lemma AllRead(s: Bytes, out: Bytes, acc: U32, bits: nat)
    requires bits < 8 && Pending(s, out, acc, bits)
    ensures Decoded(s) == Ok(out)
  {
    BitsMeaning(s);
    OctetsUnique(Values(Significant(s)), out, Low(acc, bits));
  }

  /** The octets written and the low `bits` bits of the accumulator are the bits of the characters read. */
  predicate Pending(read: Bytes, out: Bytes, acc: U32, bits: nat) {
    BitsOf(read) == Some(Stream(out, 8) + Low(acc, bits))
  }

  lemma NothingRead(s: Bytes)
    ensures Pending(s[..0], [], 0, 0)
  {
    var none: Bytes := [];
    assert s[..0] == none && Stream(none, 8) == [] && Low(0, 0) == [];
    assert BitsOf(none) == Some([]);
    Associative<bool>([], [], []);
  }

  /** The bits of a text's characters, unless one is outside the alphabet. */
  function BitsOf(s: Bytes): Option<seq<bool>> {
    if s == [] then Some([])
    else
      var n := |s| - 1;
      match BitsOf(s[..n])
      case None => None
      case Some(b) =>
        if Skipped(s[n]) then Some(b)
        else if Lookup(s[n]) == INVALID then None
        else Some(b + Low(Lookup(s[n]), 6))
  }

  lemma {:induction false} BitsMeaning(s: Bytes)
    ensures var t := Significant(s); BitsOf(s) == if AllValid(t) then Some(Stream(Values(t), 6)) else None
  {
    if s != [] {
      var n := |s| - 1;
      BitsMeaning(s[..n]);
      if !Skipped(s[n]) {
        BitsPush(Significant(s[..n]), s[n]);
      }
    }
  }

  lemma BitsPush(t: Bytes, c: Byte)
    ensures AllValid(t + [c]) <==> AllValid(t) && Lookup(c) != INVALID
    ensures AllValid(t) && Lookup(c) != INVALID ==>
      Stream(Values(t + [c]), 6) == Stream(Values(t), 6) + Low(Lookup(c), 6)
  {
    PushValid(t, c);
    if AllValid(t) && Lookup(c) != INVALID {
      ValuesAppend(t, c);
      StreamAppend(Values(t), [Lookup(c)], 6);
      StreamOfTwo(Lookup(c), Lookup(c), 6);
    }
  }

  lemma DecodedInvalid(s: Bytes, i: nat)
    requires i < |s| && AllValid(Significant(s[..i])) && !Skipped(s[i]) && Lookup(s[i]) == INVALID
    ensures Decoded(s) == Err(InvalidCharacter(s[i]))
  {
    SignificantStep(s, i);
    FirstInvalidAt(Significant(s[..i]), s[i], Significant(s[i + 1..]));
  }

  lemma OctetsUnique(vs: seq<nat>, out: Bytes, rest: seq<bool>)
    requires Stream(vs, 6) == Stream(out, 8) + rest && |rest| < 8
    ensures Octets(vs) == out
  {
    assert Pow(2, 8) == 256;
    GroupOfStream(out, rest, 8);
  }

  lemma {:induction false} SignificantAppend(a: Bytes, b: Bytes)
    ensures Significant(a + b) == Significant(a) + Significant(b)
    decreases |b|
  {
    if b == [] {
      assert a + b == a;
    } else {
      var n := |b| - 1;
      SignificantAppend(a, b[..n]);
      InitOfConcat(a, b);
      Associative(Significant(a), Significant(b[..n]), [b[n]]);
    }
  }

  lemma SignificantStep(s: Bytes, i: nat)
    requires i < |s|
    ensures Significant(s[..i + 1]) == if Skipped(s[i]) then Significant(s[..i]) else Significant(s[..i]) + [s[i]]
    ensures Significant(s) == Significant(s[..i + 1]) + Significant(s[i + 1..])
  {
    assert s[..i + 1][..i] == s[..i];
    SignificantAppend(s[..i + 1], s[i + 1..]);
    SplitSeq(s, i + 1);
  }

  lemma {:induction false} FirstInvalidAt(t: Bytes, c: Byte, rest: Bytes)
    requires AllValid(t) && Lookup(c) == INVALID
    ensures !AllValid(t + [c] + rest) && FirstInvalid(t + [c] + rest) == c
    decreases |rest|
  {
    var u := t + [c] + rest;
    assert u[|t|] == c;
    if rest == [] {
      assert u[..|t|] == t;
    } else {
      var n := |rest| - 1;
      FirstInvalidAt(t, c, rest[..n]);
      InitOfConcat(t + [c], rest);
    }
  }

  /** Shifting a character's sextet in appends its bits. */
  lemma ShiftIn(s: Bytes, i: nat, out: Bytes, acc: U32, bits: nat)
    requires i < |s| && bits <= 6 && Pending(s[..i], out, acc, bits)
    requires !Skipped(s[i]) && Lookup(s[i]) != INVALID
    ensures AfterSextet(s[..i + 1], out, acc, bits, Lookup(s[i]))
  {
    var v := Lookup(s[i]);
    assert s[..i + 1][..i] == s[..i];
    ShiftOr(acc, bits, v);
    Associative(Stream(out, 8), Low(acc, bits), Low(v, 6));
  }

  lemma ValuesAppend(t: Bytes, c: Byte)
    requires AllValid(t) && Lookup(c) != INVALID
    ensures AllValid(t + [c]) && Values(t + [c]) == Values(t) + [Lookup(c) as nat]
  {}

  lemma ShiftOr(acc: U32, bits: nat, v: nat)
    requires v < 64 && bits <= 6
    ensures Or(Shl(acc, 6), v) < 0x1_0000_0000
    ensures Low(Or(Shl(acc, 6), v), bits + 6) == Low(acc, bits) + Low(v, 6)
  {
    var h: nat := acc % 0x400_0000;
    assert Pow(2, 6) == 64;
    assert Pow(2, 26) == 0x400_0000 by {
      assert Pow(2, 13) == 0x2000;
      PowAdd(2, 13, 13);
    }
    assert Shl(acc, 6) == 64 * h;
    OrDisjoint(h, v, 6);
    LowConcat(h, v, bits, 6);
    LowOfMod(acc, 26, bits);
  }

  /** Shifting an octet out moves the oldest eight pending bits to the output. */
  lemma ShiftOut(t: Bytes, out: Bytes, acc: U32, bits: nat)
    requires Pending(t, out, acc, bits + 8)
    ensures Pending(t, out + [Shr(acc, bits) % 0x100], acc, bits)
  {
    var b := Shr(acc, bits) % 0x100;
    assert Low(acc, bits + 8) == Low(b, 8) + Low(acc, bits) by {
      assert Pow(2, 8) == 256;
      LowSplit(acc, 8, bits);
      LowOfMod(Shr(acc, bits), 8, 8);
    }
    assert Stream(out + [b], 8) == Stream(out, 8) + Low(b, 8) by {
      StreamAppend(out, [b], 8);
      StreamOfTwo(b, b, 8);
    }
    Associative(Stream(out, 8), Low(b, 8), Low(acc, bits));
  }

  // ---- laws of the codec

  /** Decoding an encoding gives the octets back. */
  lemma {:induction false} RoundTrip(x: Bytes)
    ensures Decoded(Encoded(x)) == Ok(x)
  {
    var vs := Sextets(x);
    SymbolsDecode(vs, Padding(|x|));
    SextetStream(x);
    assert Pow(2, 8) == 256;
    GroupOfStream(x, Repeat(false, ZeroBits(|x|)), 8);
  }

  lemma SextetStream(x: Bytes)
    ensures Stream(Sextets(x), 6) == Stream(x, 8) + Repeat(false, ZeroBits(|x|))
  {
    var b := Stream(x, 8) + Repeat(false, ZeroBits(|x|));
    StreamOfGroup(b, 6);
    WholeSextets(|x|, |Sextets(x)|);
  }

  lemma WholeSextets(n: nat, k: nat)
    requires 6 * k <= 8 * n + ZeroBits(n) < 6 * k + 6
    ensures 6 * k == 8 * n + ZeroBits(n)
  {}

  lemma {:induction false} SymbolsDecode(vs: seq<nat>, n: nat)
    requires forall k :: 0 <= k < |vs| ==> vs[k] < 64
    ensures var s := Symbols(vs) + Repeat(PAD, n);
      Significant(s) == Symbols(vs) && AllValid(Symbols(vs)) && Values(Symbols(vs)) == vs
  {
    forall k | 0 <= k < |vs| ensures Lookup(Symbol(vs[k])) == vs[k] { SymbolLookup(vs[k]); }
    SignificantOfSymbols(vs, n);
  }

  lemma {:induction false} SignificantOfSymbols(vs: seq<nat>, n: nat)
    requires forall k :: 0 <= k < |vs| ==> vs[k] < 64
    ensures Significant(Symbols(vs) + Repeat(PAD, n)) == Symbols(vs)
    decreases n, |vs|
  {
    var s := Symbols(vs) + Repeat(PAD, n);
    if n > 0 {
      SignificantOfSymbols(vs, n - 1);
      assert s[..|s| - 1] == Symbols(vs) + Repeat(PAD, n - 1);
    } else if vs != [] {
      var m := |vs| - 1;
      SignificantOfSymbols(vs[..m], 0);
      assert s[..m] == Symbols(vs[..m]) + Repeat(PAD, 0);
      assert Symbols(vs) == Symbols(vs[..m]) + [Symbol(vs[m])];
    }
  }

  /** Decoding fails exactly on a character that is neither skipped nor in the alphabet;
      `k` sextets give `6k/8` octets, rounded down. */
  lemma DecodeDomain(s: Bytes)
    ensures Decoded(s).Ok? <==> forall i :: 0 <= i < |s| ==> MayOccur(s[i])
    ensures Decoded(s).Ok? ==> |Decoded(s).value| == 6 * |Significant(s)| / 8
  {
    SignificantDomain(s);
    forall i | 0 <= i < |s| ensures MayOccur(s[i]) <==> Skipped(s[i]) || Lookup(s[i]) != INVALID {
      OccurringBytes(s[i]);
    }
  }

  /** What is passed over: '=' and ASCII white space, that is tab, line feed, form feed, carriage return and space. */
  predicate PaddingOrSpace(c: Byte) {
    c in {'=' as int, '\t' as int, '\n' as int, 12, '\r' as int, ' ' as int}
  }

  /** That, and the letters, digits, '+' and '/'. */
  predicate MayOccur(c: Byte) {
    || PaddingOrSpace(c) || 'A' as int <= c <= 'Z' as int || 'a' as int <= c <= 'z' as int
    || '0' as int <= c <= '9' as int || c == '+' as int || c == '/' as int
  }

  lemma OccurringBytes(c: Byte)
    ensures PaddingOrSpace(c) <==> Skipped(c)
    ensures MayOccur(c) <==> Skipped(c) || Lookup(c) != INVALID
  {}

  /** The error is the first byte that may not occur. */
  lemma FirstErrorReported(s: Bytes, i: nat)
    requires i < |s| && !MayOccur(s[i]) && forall k :: 0 <= k < i ==> MayOccur(s[k])
    ensures Decoded(s) == Err(InvalidCharacter(s[i]))
  {
    OccurringBytes(s[i]);
    DecodeDomain(s[..i]);
    DecodedInvalid(s, i);
  }

  lemma {:induction false} SignificantDomain(s: Bytes)
    ensures AllValid(Significant(s)) <==> forall i :: 0 <= i < |s| ==> Skipped(s[i]) || Lookup(s[i]) != INVALID
  {
    if s != [] {
      var n := |s| - 1;
      var t := Significant(s[..n]);
      SignificantDomain(s[..n]);
      if !Skipped(s[n]) {
        PushValid(t, s[n]);
      }
      forall i | 0 <= i < n ensures s[i] == s[..n][i] {}
    }
  }

  lemma PushValid(t: Bytes, c: Byte)
    ensures AllValid(t + [c]) <==> AllValid(t) && Lookup(c) != INVALID
  {
    if AllValid(t + [c]) {
      assert (t + [c])[|t|] == c;
      forall i | 0 <= i < |t| ensures Lookup(t[i]) != INVALID { assert t[i] == (t + [c])[i]; }
    }
  }

  /** Padding and white space may be put in or taken out anywhere. */
  lemma SkippedIgnored(a: Bytes, gap: Bytes, b: Bytes)
    requires forall i :: 0 <= i < |gap| ==> PaddingOrSpace(gap[i])
    ensures Decoded(a + gap + b) == Decoded(a + b)
  {
    forall i | 0 <= i < |gap| ensures Skipped(gap[i]) { OccurringBytes(gap[i]); }
    SignificantAppend(a + gap, b);
    SignificantAppend(a, gap);
    SignificantAppend(a, b);
    SignificantOfGap(gap);
    assert Significant(a) + [] + Significant(b) == Significant(a) + Significant(b);
  }

  lemma {:induction false} SignificantOfGap(gap: Bytes)
    requires forall i :: 0 <= i < |gap| ==> Skipped(gap[i])
    ensures Significant(gap) == []
  {
    if gap != [] {
      SignificantOfGap(gap[..|gap| - 1]);
    }
  }

  /** Section 3.5 of RFC 4648: whole quadruples, padding only at the end, zero pad bits. */
  predicate CanonicalWith(s: Bytes, n: nat) {
    && |s| % 4 == 0 && n <= 2 && n <= |s|
    && AllValid(s[..|s| - n]) && s[|s| - n..] == Repeat(PAD, n)
    && (n == 1 ==> Lookup(s[|s| - 2]) % 4 == 0)
    && (n == 2 ==> Lookup(s[|s| - 3]) % 16 == 0)
  }

  predicate Canonical(s: Bytes) {
    CanonicalWith(s, 0) || CanonicalWith(s, 1) || CanonicalWith(s, 2)
  }

  /** Encoding undoes decoding on the canonical texts and on no others. */
  lemma ReencodeIffCanonical(s: Bytes)
    ensures Decoded(s).Ok? && Encoded(Decoded(s).value) == s <==> Canonical(s)
  {
    if Decoded(s).Ok? && Encoded(Decoded(s).value) == s {
      EncodedIsCanonical(Decoded(s).value);
    }
    if CanonicalWith(s, 0) {
      CanonicalReencodes(s, 0);
    } else if CanonicalWith(s, 1) {
      CanonicalReencodes(s, 1);
    } else if CanonicalWith(s, 2) {
      CanonicalReencodes(s, 2);
    }
  }

  lemma StreamTail(vs: seq<nat>, r: nat)
    requires vs != [] && r <= 6
    ensures Stream(vs, 6)[6 * |vs| - r..] == Low(vs[|vs| - 1], r)
  {
    var n := |vs| - 1;
    StreamAppend(vs[..n], [vs[n]], 6);
    StreamOfTwo(vs[n], vs[n], 6);
    assert vs == vs[..n] + [vs[n]];
    LowSplit(vs[n], 6 - r, r);
  }

  /** The last `r` bits of a sextet are zero just when `2^r` divides it. */
  lemma ZeroTail(v: nat, r: nat)
    ensures Low(v, r) == Repeat(false, r) <==> v % Pow(2, r) == 0
  {
    NumOfLow(v, r);
    LowZero(r);
    NumOfLow(0, r);
    LowOfNum(Low(v, r));
  }

  lemma SextetCount(n: nat, k: nat)
    requires 6 * k == 8 * n + ZeroBits(n)
    ensures (k + Padding(n)) % 4 == 0
    ensures n % 3 == 0 ==> Padding(n) == ZeroBits(n) == 0
    ensures n % 3 == 1 ==> Padding(n) == 2 && ZeroBits(n) == 4
    ensures n % 3 == 2 ==> Padding(n) == 1 && ZeroBits(n) == 2
  {
    var q, r := n / 3, n % 3;
    DivisionTheorem(n, 3);
    assert k + Padding(n) == 4 * (q + if r == 0 then 0 else 1);
    DivModUnique(4, 0, q + if r == 0 then 0 else 1);
  }

  lemma OctetCount(k: nat, n: nat, m: nat)
    requires (k + n) % 4 == 0 && n <= 2 && 8 * m <= 6 * k < 8 * m + 8
    ensures Padding(m) == n && 8 * m + ZeroBits(m) == 6 * k
    ensures ZeroBits(m) == 2 * n
  {
    var q := (k + n) / 4;
    assert k == 4 * q - n;
    if n == 0 {
      assert m == 3 * q;
    } else if n == 1 {
      assert m == 3 * (q - 1) + 2;
    } else {
      assert m == 3 * (q - 1) + 1;
    }
  }

  /** The pad bits of an encoding are zero. */
  lemma LastSextet(x: Bytes)
    requires ZeroBits(|x|) > 0
    ensures Sextets(x) != [] && Sextets(x)[|Sextets(x)| - 1] % Pow(2, ZeroBits(|x|)) == 0
  {
    var vs, r := Sextets(x), ZeroBits(|x|);
    SextetStream(x);
    StreamTail(vs, r);
    ZeroTail(vs[|vs| - 1], r);
  }

  lemma EncodedIsCanonical(x: Bytes)
    ensures CanonicalWith(Encoded(x), Padding(|x|))
  {
    var vs, n := Sextets(x), Padding(|x|);
    assert 6 * |vs| == 8 * |x| + ZeroBits(|x|) by { SextetStream(x); }
    SextetCount(|x|, |vs|);
    if n > 0 {
      LastSextet(x);
    }
    CanonicalText(vs, n);
  }

  /** The symbols of sextets, the last with zero pad bits, and padding make a canonical text. */
  lemma CanonicalText(vs: seq<nat>, n: nat)
    requires n <= 2 && (|vs| + n) % 4 == 0 && forall k :: 0 <= k < |vs| ==> vs[k] < 64
    requires n > 0 ==> vs != [] && vs[|vs| - 1] % Pow(2, 2 * n) == 0
    ensures CanonicalWith(Symbols(vs) + Repeat(PAD, n), n)
  {
    var s := Symbols(vs) + Repeat(PAD, n);
    SymbolsDecode(vs, n);
    assert s[..|s| - n] == Symbols(vs) && s[|s| - n..] == Repeat(PAD, n);
    if n > 0 {
      assert Pow(2, 2) == 4 && Pow(2, 4) == 16;
      SymbolLookup(vs[|vs| - 1]);
      assert s[|s| - n - 1] == Symbol(vs[|vs| - 1]);
    }
  }

  /** Of whole quadruples with zero pad bits, regrouping loses nothing but those bits. */
  lemma RegroupKeepsBits(vs: seq<nat>, n: nat)
    requires n <= 2 && (|vs| + n) % 4 == 0
    requires n > 0 ==> vs != [] && vs[|vs| - 1] % Pow(2, 2 * n) == 0
    ensures var x := Octets(vs); Padding(|x|) == n && Stream(vs, 6) == Stream(x, 8) + Repeat(false, ZeroBits(|x|))
  {
    OctetStream(vs);
    OctetCount(|vs|, n, |Octets(vs)|);
    ZerosAfter(vs, Octets(vs), 2 * n);
  }

  lemma ZerosAfter(vs: seq<nat>, x: Bytes, r: nat)
    requires r <= 6 && (r > 0 ==> vs != [] && vs[|vs| - 1] % Pow(2, r) == 0)
    requires 8 * |x| + r == 6 * |vs| && Stream(x, 8) == Stream(vs, 6)[..8 * |x|]
    ensures Stream(vs, 6) == Stream(x, 8) + Repeat(false, r)
  {
    ZeroEnd(vs, r);
    SplitEnd(Stream(vs, 6), Stream(x, 8), Repeat(false, r));
  }

  lemma SplitEnd<T>(s: seq<T>, a: seq<T>, b: seq<T>)
    requires |s| == |a| + |b| && s[..|a|] == a && s[|s| - |b|..] == b
    ensures s == a + b
  {
    SplitSeq(s, |a|);
  }

  lemma ZeroEnd(vs: seq<nat>, r: nat)
    requires r <= 6 && (r > 0 ==> vs != [] && vs[|vs| - 1] % Pow(2, r) == 0)
    ensures 6 * |vs| >= r && Stream(vs, 6)[6 * |vs| - r..] == Repeat(false, r)
  {
    if r > 0 {
      StreamTail(vs, r);
      ZeroTail(vs[|vs| - 1], r);
    }
  }

  lemma OctetStream(vs: seq<nat>)
    ensures var n := 8 * |Octets(vs)|;
      n <= 6 * |vs| < n + 8 && Stream(Octets(vs), 8) == Stream(vs, 6)[..n]
  {
    StreamOfGroup(Stream(vs, 6), 8);
  }

  lemma CanonicalReencodes(s: Bytes, n: nat)
    requires CanonicalWith(s, n)
    ensures Decoded(s).Ok? && Encoded(Decoded(s).value) == s
  {
    var vs := CanonicalParts(s, n);
    SymbolsDecode(vs, n);
    RegroupKeepsBits(vs, n);
    SextetsUnique(Octets(vs), vs);
  }

  /** A canonical text is the symbols of sextets, the last with zero pad bits, and padding. */
  lemma CanonicalParts(s: Bytes, n: nat) returns (vs: seq<nat>)
    requires CanonicalWith(s, n)
    ensures n <= 2 && (|vs| + n) % 4 == 0 && forall k :: 0 <= k < |vs| ==> vs[k] < 64
    ensures s == Symbols(vs) + Repeat(PAD, n)
    ensures n > 0 ==> vs != [] && vs[|vs| - 1] % Pow(2, 2 * n) == 0
  {
    var body := s[..|s| - n];
    vs := Values(body);
    SymbolsOfValues(body);
    SplitSeq(s, |s| - n);
    if n > 0 {
      CanonicalTail(s, n);
      assert body[|body| - 1] == s[|s| - n - 1];
    }
  }

  lemma CanonicalTail(s: Bytes, n: nat)
    requires CanonicalWith(s, n) && n > 0
    ensures |s| > n && Lookup(s[|s| - n - 1]) % Pow(2, 2 * n) == 0
  {
    assert Pow(2, 2) == 4 && Pow(2, 4) == 16;
  }

  lemma SymbolsOfValues(t: Bytes)
    requires AllValid(t)
    ensures Symbols(Values(t)) == t
  {}
}
