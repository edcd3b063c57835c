/** Decoding a membership proof from the sequencer's JSON. */
module ProofJson {
  import opened ByteStrings
  import opened Positional
  import opened SequencerClient
  import opened Wrappers

  /** A JSON value; string contents are their UTF-8 bytes. */
  datatype Json =
    | Null
    | Bool(b: bool)
    | Int(n: int)
    | Float
    | Str(s: Bytes)
    | Arr(items: seq<Json>)
    | Obj(fields: map<string, Json>)

  datatype RpcError =
    | MissingLeafIndex
    | MissingSiblings
    | TupleLength(n: nat)
    | LeafIndexNotU64
    | SiblingsNotArray
    | NeitherObjectNorTuple
    | NonByte(i: nat)
    | BadHex(i: nat)
    | NeitherArrayNorHex(i: nat)
    | BadLength(i: nat, n: nat)

  function AsU64(v: Json): Option<U64> {
    if v.Int? && 0 <= v.n < 0x1_0000_0000_0000_0000 then Some(v.n) else None
  }

  // ---- siblings

  function Nibble(c: Byte): Option<nat> {
    if 48 <= c <= 57 then Some(c - 48)
    else if 97 <= c <= 102 then Some(c - 87)
    else if 65 <= c <= 70 then Some(c - 55)
    else None
  }

  function HexDecode(s: Bytes): Option<Bytes> {
    if s == [] then Some([])
    else if |s| == 1 then None
    else match (Nibble(s[0]), Nibble(s[1]), HexDecode(s[2..]))
      case (Some(hi), Some(lo), Some(rest)) => Some([HexByte(hi, lo)] + rest)
      case _ => None
  }

  function HexByte(hi: nat, lo: nat): Byte {
    (16 * hi + lo) % 0x100
  }

  function ByteValues(items: seq<Json>): Option<Bytes> {
    if items == [] then Some([])
    else match (AsU64(items[0]), ByteValues(items[1..]))
      case (Some(n), Some(rest)) => if n < 0x100 then Some([n as Byte] + rest) else None
      case _ => None
  }

  function SiblingBytes(v: Json, i: nat): Result<Bytes, RpcError> {
    match v
    case Arr(items) => (match ByteValues(items) case Some(b) => Ok(b) case None => Err(NonByte(i)))
    case Str(s) => (match HexDecode(s) case Some(b) => Ok(b) case None => Err(BadHex(i)))
    case _ => Err(NeitherArrayNorHex(i))
  }

  function Sibling(v: Json, i: nat): Result<Digest, RpcError> {
    match SiblingBytes(v, i)
    case Err(e) => Err(e)
    case Ok(b) => if |b| == 32 then Ok(b) else Err(BadLength(i, |b|))
  }

  /** All siblings, or the error of the first that does not decode. */
  function HashArray(values: seq<Json>): Result<seq<Digest>, RpcError> {
    if values == [] then Ok([])
    else
      var n := |values| - 1;
      match HashArray(values[..n])
      case Err(e) => Err(e)
      case Ok(ds) => match Sibling(values[n], n)
        case Err(e) => Err(e)
        case Ok(d) => Ok(ds + [d])
  }

  method DecodeHashArray(values: seq<Json>) returns (r: Result<seq<Digest>, RpcError>)
    ensures r == HashArray(values)
  {
    var out: seq<Digest> := [];
    var i := 0;
    while i < |values|
      invariant 0 <= i <= |values| && HashArray(values[..i]) == Ok(out)
    {
      assert values[..i + 1][..i] == values[..i];
      var d := Sibling(values[i], i);
      if d.Err? {
        FirstErrorStays(values, i + 1);
        return Err(d.error);
      }
      out := out + [d.value];
      i := i + 1;
    }
    assert values[..i] == values;
    r := Ok(out);
  }

  lemma {:induction false} FirstErrorStays(values: seq<Json>, i: nat)
    requires i <= |values| && HashArray(values[..i]).Err?
    ensures HashArray(values) == HashArray(values[..i])
  {
    if i == |values| {
      assert values[..i] == values;
    } else {
      var n := |values| - 1;
      assert values[..n][..i] == values[..i];
      FirstErrorStays(values[..n], i);
    }
  }

  function DecodeProof(v: Json): Result<MembershipProof, RpcError> {
    match v
    case Obj(fields) =>
      if "leaf_index" !in fields || AsU64(fields["leaf_index"]).None? then Err(MissingLeafIndex)
      else if "siblings" !in fields || !fields["siblings"].Arr? then Err(MissingSiblings)
      else (match HashArray(fields["siblings"].items)
            case Err(e) => Err(e)
            case Ok(ds) => Ok(MembershipProof(AsU64(fields["leaf_index"]).value, ds)))
    case Arr(items) =>
      if |items| != 2 then Err(TupleLength(|items|))
      else if AsU64(items[0]).None? then Err(LeafIndexNotU64)
      else if !items[1].Arr? then Err(SiblingsNotArray)
      else (match HashArray(items[1].items)
            case Err(e) => Err(e)
            case Ok(ds) => Ok(MembershipProof(AsU64(items[0]).value, ds)))
    case _ => Err(NeitherObjectNorTuple)
  }

  // ---- what a value denotes, without reference to the decoder

  predicate DenotesBytes(items: seq<Json>, d: Bytes) {
    |items| == |d| && forall k :: 0 <= k < |d| ==> items[k] == Int(d[k])
  }

  predicate DenotesHex(s: Bytes, d: Bytes) {
    |s| == 2 * |d| && forall k :: 0 <= k < |d| ==> HexPair(s[2 * k], s[2 * k + 1], d[k])
  }

  predicate HexPair(hi: Byte, lo: Byte, b: Byte) {
    HexValue(hi, b / 16) && HexValue(lo, b % 16)
  }

  /** A digit, or a letter of either case. */
  predicate HexValue(c: Byte, v: nat) {
    if v < 10 then c == '0' as int + v
    else v < 16 && (c == 'a' as int + v - 10 || c == 'A' as int + v - 10)
  }

  lemma NibbleIff(c: Byte, v: nat)
    ensures Nibble(c) == Some(v) <==> HexValue(c, v)
  {}

  lemma PairIff(hi: Byte, lo: Byte, b: Byte)
    ensures HexPair(hi, lo, b)
      <==> Nibble(hi).Some? && Nibble(lo).Some? && HexByte(Nibble(hi).value, Nibble(lo).value) == b
  {
    NibbleIff(hi, b / 16);
    NibbleIff(lo, b % 16);
    match (Nibble(hi), Nibble(lo))
    case (Some(x), Some(y)) => HalvesIff(x, y, b);
    case _ =>
  }

  lemma HalvesIff(x: nat, y: nat, b: Byte)
    requires x < 16 && y < 16
    ensures HexByte(x, y) == b <==> x == b / 16 && y == b % 16
  {
    DivModUnique(16, y, x);
    DivisionTheorem(b, 16);
    LessThan256(x, y);
  }

  lemma LessThan256(x: nat, y: nat)
    requires x < 16 && y < 16
    ensures HexByte(x, y) == 16 * x + y
  {}

  /** A sibling is a byte array or a hex string, and always 32 bytes. */
  predicate DenotesSibling(v: Json, d: Digest) {
    (v.Arr? && DenotesBytes(v.items, d)) || (v.Str? && DenotesHex(v.s, d))
  }

  predicate DenotesList(v: Json, ds: seq<Digest>) {
    v.Arr? && |v.items| == |ds| && forall k :: 0 <= k < |ds| ==> DenotesSibling(v.items[k], ds[k])
  }

  predicate Denotes(v: Json, p: MembershipProof) {
    || (v.Obj? && "leaf_index" in v.fields && "siblings" in v.fields
        && v.fields["leaf_index"] == Int(p.leafIndex) && DenotesList(v.fields["siblings"], p.siblings))
    || (v.Arr? && |v.items| == 2 && v.items[0] == Int(p.leafIndex) && DenotesList(v.items[1], p.siblings))
  }

  lemma {:induction false} BytesDecode(items: seq<Json>, d: Bytes)
    ensures ByteValues(items) == Some(d) <==> DenotesBytes(items, d)
  {
    if items != [] {
      if d == [] {
        assert ByteValues(items) != Some(d);
      } else {
        BytesDecode(items[1..], d[1..]);
        assert d == [d[0]] + d[1..];
        if DenotesBytes(items, d) {
          assert DenotesBytes(items[1..], d[1..]);
        }
        if ByteValues(items) == Some(d) {
          assert d[1..] == ByteValues(items[1..]).value;
          forall k | 0 <= k < |d| ensures items[k] == Int(d[k]) {
            if k > 0 { assert items[k] == items[1..][k - 1] && d[k] == d[1..][k - 1]; }
          }
        }
      }
    }
  }

  lemma {:induction false} HexDecodes(s: Bytes, d: Bytes)
    ensures HexDecode(s) == Some(d) <==> DenotesHex(s, d)
    decreases |s|
  {
    if |s| >= 2 && d != [] {
      HexDecodes(s[2..], d[1..]);
      PairIff(s[0], s[1], d[0]);
      assert d == [d[0]] + d[1..];
      if DenotesHex(s, d) {
        HexTail(s, d);
        assert HexPair(s[2 * 0], s[2 * 0 + 1], d[0]);
      }
      if HexDecode(s) == Some(d) {
        assert d[1..] == HexDecode(s[2..]).value;
        assert HexPair(s[0], s[1], d[0]);
        HexCons(s, d);
      }
    }
  }

  lemma HexTail(s: Bytes, d: Bytes)
    requires DenotesHex(s, d) && d != []
    ensures DenotesHex(s[2..], d[1..])
  {
    forall k | 0 <= k < |d| - 1 ensures HexPair(s[2..][2 * k], s[2..][2 * k + 1], d[1..][k]) {
      assert HexPair(s[2 * (k + 1)], s[2 * (k + 1) + 1], d[k + 1]);
    }
  }

  lemma HexCons(s: Bytes, d: Bytes)
    requires |s| >= 2 && d != [] && HexPair(s[0], s[1], d[0]) && DenotesHex(s[2..], d[1..])
    ensures DenotesHex(s, d)
  {
    forall k | 0 <= k < |d| ensures HexPair(s[2 * k], s[2 * k + 1], d[k]) {
      if k > 0 {
        assert HexPair(s[2..][2 * (k - 1)], s[2..][2 * (k - 1) + 1], d[1..][k - 1]);
      }
    }
  }

  lemma SiblingDecodes(v: Json, i: nat, d: Digest)
    ensures Sibling(v, i) == Ok(d) <==> DenotesSibling(v, d)
  {
    match v
    case Arr(items) => BytesDecode(items, d);
    case Str(s) => HexDecodes(s, d);
    case _ =>
  }

  lemma {:induction false} ListDecodes(values: seq<Json>, ds: seq<Digest>)
    ensures HashArray(values) == Ok(ds) <==> DenotesList(Arr(values), ds)
  {
    if values != [] && ds != [] {
      var n, m := |values| - 1, |ds| - 1;
      ListDecodes(values[..n], ds[..m]);
      SiblingDecodes(values[n], n, ds[m]);
      assert ds == ds[..m] + [ds[m]];
      if DenotesList(Arr(values), ds) {
        assert DenotesList(Arr(values[..n]), ds[..m]);
      }
      if HashArray(values) == Ok(ds) {
        assert ds[..m] == HashArray(values[..n]).value;
        forall k | 0 <= k < |ds| ensures DenotesSibling(values[k], ds[k]) {
          if k < m { assert DenotesSibling(values[..n][k], ds[..m][k]); }
        }
      }
    }
  }

  /** The decoder accepts a value as a proof exactly when the value denotes that proof. */
  lemma DecodeIffDenotes(v: Json, p: MembershipProof)
    ensures DecodeProof(v) == Ok(p) <==> Denotes(v, p)
  {
    match v
    case Obj(fields) =>
      if "siblings" in fields && fields["siblings"].Arr? {
        ListDecodes(fields["siblings"].items, p.siblings);
      }
    case Arr(items) =>
      if |items| == 2 && items[1].Arr? {
        ListDecodes(items[1].items, p.siblings);
      }
    case _ =>
  }

  // ---- printing

  function HexDigit(n: nat): Byte
    requires n < 16
  {
    if n < 10 then n + 48 else n + 87
  }

  function HexText(d: Bytes): (s: Bytes)
    ensures |s| == 2 * |d|
  {
    if d == [] then [] else [HexDigit(d[0] / 16), HexDigit(d[0] % 16)] + HexText(d[1..])
  }

  function PrintSibling(d: Digest, asHex: bool): Json {
    if asHex then Str(HexText(d)) else Arr(seq(32, k requires 0 <= k < 32 => Int(d[k])))
  }

  function PrintList(ds: seq<Digest>, hex: nat -> bool): Json {
    Arr(seq(|ds|, k requires 0 <= k < |ds| => PrintSibling(ds[k], hex(k))))
  }

  function PrintProof(p: MembershipProof, asObject: bool, hex: nat -> bool): Json {
    if asObject then Obj(map["leaf_index" := Int(p.leafIndex), "siblings" := PrintList(p.siblings, hex)])
    else Arr([Int(p.leafIndex), PrintList(p.siblings, hex)])
  }

  lemma {:induction false} HexTextDenotes(d: Bytes)
    ensures DenotesHex(HexText(d), d)
  {
    if d != [] {
      HexTextDenotes(d[1..]);
      assert HexText(d)[2..] == HexText(d[1..]);
      HexCons(HexText(d), d);
    }
  }

  /** A proof printed as a tuple or an object, each sibling independently as bytes or hex, decodes to itself. */
  lemma PrintedProofDecodes(p: MembershipProof, asObject: bool, hex: nat -> bool)
    ensures DecodeProof(PrintProof(p, asObject, hex)) == Ok(p)
  {
    forall k | 0 <= k < |p.siblings| ensures DenotesSibling(PrintSibling(p.siblings[k], hex(k)), p.siblings[k]) {
      HexTextDenotes(p.siblings[k]);
    }
    DecodeIffDenotes(PrintProof(p, asObject, hex), p);
  }

  /** One sibling that denotes no 32-byte hash makes the whole decode fail, whether the list stands in a tuple or in
      an object. */
  lemma BadSiblingFails(values: seq<Json>, k: nat)
    requires k < |values| && forall d: Digest :: !DenotesSibling(values[k], d)
    ensures HashArray(values).Err?
    ensures forall index :: DecodeProof(Arr([index, Arr(values)])).Err?
    ensures forall fields :: "siblings" in fields && fields["siblings"] == Arr(values) ==> DecodeProof(Obj(fields)).Err?
  {
    BadListFails(values, k);
    forall index ensures DecodeProof(Arr([index, Arr(values)])).Err? {
      TupleFails([index, Arr(values)], values);
    }
    forall fields | "siblings" in fields && fields["siblings"] == Arr(values) ensures DecodeProof(Obj(fields)).Err? {
      ObjectFails(fields, values);
    }
  }

  lemma BadListFails(values: seq<Json>, k: nat)
    requires k < |values| && forall d: Digest :: !DenotesSibling(values[k], d)
    ensures HashArray(values).Err?
  {
    if HashArray(values).Ok? {
      ListDecodes(values, HashArray(values).value);
    }
  }

  lemma TupleFails(items: seq<Json>, values: seq<Json>)
    requires |items| == 2 && items[1] == Arr(values) && HashArray(values).Err?
    ensures DecodeProof(Arr(items)).Err?
  {}

  lemma ObjectFails(fields: map<string, Json>, values: seq<Json>)
    requires "siblings" in fields && fields["siblings"] == Arr(values) && HashArray(values).Err?
    ensures DecodeProof(Obj(fields)).Err?
  {}

  // ---- reasons

  /** What the decoder says of a sibling that is not a 32-byte hash. */
  predicate SiblingFault(v: Json, i: nat, e: RpcError) {
    match v
    case Arr(items) => e == if AllBytes(items) then BadLength(i, |items|) else NonByte(i)
    case Str(s) => e == if AllHex(s) then BadLength(i, |s| / 2) else BadHex(i)
    case _ => e == NeitherArrayNorHex(i)
  }

  predicate AllBytes(items: seq<Json>) {
    forall k :: 0 <= k < |items| ==> items[k].Int? && 0 <= items[k].n < 0x100
  }

  /** An even number of hexadecimal digits. */
  predicate AllHex(s: Bytes) {
    |s| % 2 == 0 && forall k :: 0 <= k < |s| ==> IsHex(s[k])
  }

  predicate IsHex(c: Byte) {
    '0' as int <= c <= '9' as int || 'a' as int <= c <= 'f' as int || 'A' as int <= c <= 'F' as int
  }

  lemma {:induction false} BytesFault(items: seq<Json>)
    ensures ByteValues(items).Some? <==> AllBytes(items)
    ensures AllBytes(items) ==> |ByteValues(items).value| == |items|
  {
    if items != [] {
      BytesFault(items[1..]);
      if AllBytes(items[1..]) && items[0].Int? && 0 <= items[0].n < 0x100 {
        forall k | 0 <= k < |items| ensures items[k].Int? && 0 <= items[k].n < 0x100 {
          if k > 0 { assert items[k] == items[1..][k - 1]; }
        }
      }
    }
  }

  lemma {:induction false} HexFault(s: Bytes)
    ensures HexDecode(s).Some? <==> AllHex(s)
    ensures AllHex(s) ==> |HexDecode(s).value| == |s| / 2
    decreases |s|
  {
    if |s| >= 2 {
      HexFault(s[2..]);
      if AllHex(s[2..]) && IsHex(s[0]) && IsHex(s[1]) {
        forall k | 0 <= k < |s| ensures IsHex(s[k]) {
          if k > 1 { assert s[k] == s[2..][k - 2]; }
        }
      }
    }
  }

  lemma SiblingReason(v: Json, i: nat)
    ensures forall e :: Sibling(v, i) == Err(e) <==> Sibling(v, i).Err? && SiblingFault(v, i, e)
  {
    match v
    case Arr(items) => BytesFault(items);
    case Str(s) => HexFault(s);
    case _ =>
  }

  ghost predicate IsHash(v: Json) {
    exists d: Digest :: DenotesSibling(v, d)
  }

  /** A list is refused for its first sibling that is not a 32-byte hash, with what is wrong with that one. */
  lemma FirstBadSibling(values: seq<Json>, i: nat)
    requires i < |values| && !IsHash(values[i]) && forall k :: 0 <= k < i ==> IsHash(values[k])
    ensures HashArray(values).Err? && SiblingFault(values[i], i, HashArray(values).error)
  {
    SiblingReason(values[i], i);
    if Sibling(values[i], i).Ok? {
      SiblingDecodes(values[i], i, Sibling(values[i], i).value);
    }
    GoodPrefix(values[..i]);
    assert values[..i + 1][..i] == values[..i];
    FirstErrorStays(values, i + 1);
  }

  lemma {:induction false} GoodPrefix(values: seq<Json>)
    requires forall k :: 0 <= k < |values| ==> IsHash(values[k])
    ensures HashArray(values).Ok?
  {
    if values != [] {
      var n := |values| - 1;
      GoodPrefix(values[..n]);
      var d: Digest :| DenotesSibling(values[n], d);
      SiblingDecodes(values[n], n, d);
    }
  }

  predicate IsU64(v: Json) {
    v.Int? && 0 <= v.n < 0x1_0000_0000_0000_0000
  }

  function ObjectChecks(fields: map<string, Json>): seq<(bool, RpcError)> {
    [("leaf_index" in fields && IsU64(fields["leaf_index"]), MissingLeafIndex),
     ("siblings" in fields && fields["siblings"].Arr?, MissingSiblings)]
  }

  function TupleChecks(items: seq<Json>): seq<(bool, RpcError)> {
    [(|items| == 2, TupleLength(|items|)),
     (|items| == 2 && IsU64(items[0]), LeafIndexNotU64),
     (|items| == 2 && items[1].Arr?, SiblingsNotArray)]
  }

  /** A value of neither shape, an object or a tuple is refused for the first thing that is wrong with its shape, and
      otherwise for its list of siblings. */
  lemma DecodeReason(v: Json, k: nat)
    ensures v.Obj? && FirstFails(ObjectChecks(v.fields), k) ==> DecodeProof(v) == Err(ObjectChecks(v.fields)[k].1)
    ensures v.Arr? && FirstFails(TupleChecks(v.items), k) ==> DecodeProof(v) == Err(TupleChecks(v.items)[k].1)
    ensures !v.Obj? && !v.Arr? ==> DecodeProof(v) == Err(NeitherObjectNorTuple)
  {
    if v.Obj? {
      var checks := ObjectChecks(v.fields);
      assert FirstFails(checks, k) ==> k == 0 || checks[0].0;
    } else if v.Arr? {
      var checks := TupleChecks(v.items);
      assert FirstFails(checks, k) ==> (k == 0 || checks[0].0) && (k <= 1 || checks[1].0);
    }
  }

  lemma ListReason(v: Json, values: seq<Json>)
    requires || (v.Obj? && ObjectChecks(v.fields)[0].0 && "siblings" in v.fields && v.fields["siblings"] == Arr(values))
             || (v.Arr? && TupleChecks(v.items)[1].0 && v.items[1] == Arr(values))
    ensures HashArray(values).Err? ==> DecodeProof(v) == Err(HashArray(values).error)
  {}
}
