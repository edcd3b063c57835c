/** The witness as risc0 words: the script's serialiser, and a reader that follows the field order. */
module WitnessWords {
  import opened ByteStrings
  import opened Positional
  import opened Bits
  import opened Sequences
  import opened Attestation
  import opened Wrappers

  const WORD: nat := 0x1_0000_0000

  /** An integer as `n` little-endian 32-bit limbs. */
  function Limbs(v: nat, n: nat): (ws: seq<nat>)
    ensures |ws| == n && forall i :: 0 <= i < n ==> ws[i] < WORD
  {
    Fixed(v, WORD, n)
  }

  function Flat(path: seq<Digest>): (ws: seq<nat>)
    ensures |ws| == 32 * |path|
  {
    if path == [] then [] else Flat(path[..|path| - 1]) + path[|path| - 1]
  }

  /** The words of a witness, in field order; a byte takes a word of its own. */
  function Words(w: PrivateInputs): seq<nat> {
    w.npk + (Limbs(w.identifier, 4) + (w.programOwner + (Limbs(w.balance, 4) + (Limbs(w.nonce, 4) +
    (w.dataHash + ([|w.merklePath|] + (Flat(w.merklePath) + Limbs(w.leafIndex, 2))))))))
  }

  // ---- what stands where

  /** At place `o`, `n` limbs of a number, the least significant first. */
  predicate LimbsAt(ws: seq<nat>, o: nat, n: nat, v: nat) {
    o + n <= |ws| && forall i :: 0 <= i < n ==> ws[o + i] == DigitAt(v, WORD, i)
  }

  /** The words of a witness, place by place, in the order the guest's fields are declared. */
  predicate Laid(ws: seq<nat>, w: PrivateInputs) {
    var n := |w.merklePath|;
    && |ws| == 87 + 32 * n
    && ws[0..32] == w.npk && LimbsAt(ws, 32, 4, w.identifier) && ws[36..44] == w.programOwner
    && LimbsAt(ws, 44, 4, w.balance) && LimbsAt(ws, 48, 4, w.nonce) && ws[52..84] == w.dataHash && ws[84] == n
    && (forall k {:trigger w.merklePath[k]} :: 0 <= k < n ==> ws[85 + 32 * k..117 + 32 * k] == w.merklePath[k])
    && LimbsAt(ws, 85 + 32 * n, 2, w.leafIndex)
  }

  lemma LimbsInSlice(ws: seq<nat>, o: nat, v: nat, n: nat)
    requires o + n <= |ws| && ws[o..o + n] == Limbs(v, n)
    ensures LimbsAt(ws, o, n, v)
  {
    forall i | 0 <= i < n ensures ws[o + i] == DigitAt(v, WORD, i) {
      FixedAt(v, WORD, n, i);
      assert ws[o + i] == ws[o..o + n][i];
    }
  }

  lemma {:induction false} FlatAt(path: seq<Digest>, k: nat)
    requires k < |path|
    ensures Flat(path)[32 * k..32 * k + 32] == path[k]
  {
    var n := |path| - 1;
    if k < n {
      FlatAt(path[..n], k);
      SliceOfPrefix(Flat(path[..n]), path[n], 32 * k, 32 * k + 32);
    }
  }

  /** The serialised words have that layout. */
  lemma WordsLaid(w: PrivateInputs)
    ensures Laid(Words(w), w)
  {
    var n, ws := |w.merklePath|, Words(w);
    var flat, leaf: seq<nat> := Flat(w.merklePath), Limbs(w.leafIndex, 2);
    var none: seq<nat> := [];
    var a6 := FieldsLaid(ws, w, [n] + (flat + leaf));
    var a7 := PieceAt(ws, a6, [n], flat + leaf);
    var a8 := PieceAt(ws, a7, flat, leaf);
    var _ := PieceAt(ws, a8, leaf, none);
    LimbsInSlice(ws, 85 + 32 * n, w.leafIndex, 2);
    assert ws[84] == ws[84..85][0];
    forall k {:trigger w.merklePath[k]} | 0 <= k < n ensures ws[85 + 32 * k..117 + 32 * k] == w.merklePath[k] {
      FlatAt(w.merklePath, k);
      SliceOfSlice(ws, 85, 85 + 32 * n, 32 * k, 32 * k + 32);
    }
  }

  lemma FieldsLaid(ws: seq<nat>, w: PrivateInputs, tail: seq<nat>) returns (head: seq<nat>)
    requires ws == w.npk + (Limbs(w.identifier, 4) + (w.programOwner + (Limbs(w.balance, 4) + (Limbs(w.nonce, 4) +
      (w.dataHash + tail)))))
    ensures |head| == 84 && ws == head + tail
    ensures ws[0..32] == w.npk && LimbsAt(ws, 32, 4, w.identifier) && ws[36..44] == w.programOwner
    ensures LimbsAt(ws, 44, 4, w.balance) && LimbsAt(ws, 48, 4, w.nonce) && ws[52..84] == w.dataHash
  {
    var id, bal, non := Limbs(w.identifier, 4), Limbs(w.balance, 4), Limbs(w.nonce, 4);
    var r6 := w.dataHash + tail;
    var r4 := bal + (non + r6);
    var a1: seq<nat> := w.npk;
    var a2 := PieceAt(ws, a1, id, w.programOwner + r4);
    var a3 := PieceAt(ws, a2, w.programOwner, r4);
    var a4 := PieceAt(ws, a3, bal, non + r6);
    var a5 := PieceAt(ws, a4, non, r6);
    head := PieceAt(ws, a5, w.dataHash, tail);
    LimbsInSlice(ws, 32, w.identifier, 4);
    LimbsInSlice(ws, 44, w.balance, 4);
    LimbsInSlice(ws, 48, w.nonce, 4);
  }

  /** The next piece of a nested concatenation, and what stands before the one after it. */
  lemma PieceAt(ws: seq<nat>, before: seq<nat>, piece: seq<nat>, rest: seq<nat>) returns (next: seq<nat>)
    requires ws == before + (piece + rest)
    ensures next == before + piece && ws == next + rest
    ensures |next| == |before| + |piece| <= |ws| && ws[|before|..|next|] == piece
  {
    next := before + piece;
    Associative(before, piece, rest);
  }

  // ---- the serialiser

  /** `(v >> 32*i) & 0xFFFFFFFF` for each limb. */
  method PushLimbs(words: seq<nat>, v: nat, n: nat) returns (out: seq<nat>)
    ensures out == words + Limbs(v, n)
  {
    out := words;
    var i := 0;
    while i < n
      invariant 0 <= i <= n && out == words + Limbs(v, i)
    {
      AndMask(Shr(v, 32 * i), 32);
      LimbsPush(v, i);
      Associative(words, Limbs(v, i), [Shr(v, 32 * i) % WORD]);
      out := out + [And(Shr(v, 32 * i), 0xFFFF_FFFF)];
      i := i + 1;
    }
  }

  lemma WordIsPow()
    ensures Pow(2, 32) == WORD
  {
    assert Pow(2, 8) == 0x100;
    PowAdd(2, 8, 8);
    PowAdd(2, 16, 16);
  }

  lemma {:induction false} LimbsPush(v: nat, i: nat)
    ensures Pow(2, 32) == WORD
    ensures Limbs(v, i + 1) == Limbs(v, i) + [Shr(v, 32 * i) % WORD]
    decreases i
  {
    WordIsPow();
    if i > 0 {
      LimbsPush(v / WORD, i - 1);
      ShiftTwice(v, i);
    }
  }

  lemma ShiftTwice(v: nat, i: nat)
    requires i > 0
    ensures Shr(v, 32 * i) == Shr(v / WORD, 32 * (i - 1))
  {
    WordIsPow();
    var p := Pow(2, 32 * (i - 1));
    PowAdd(2, 32, 32 * (i - 1));
    QuotientTwice(v, WORD, p);
  }

  method Risc0Words(w: PrivateInputs) returns (words: seq<nat>)
    ensures words == Words(w)
  {
    words := w.npk;
    words := PushLimbs(words, w.identifier, 4);
    words := words + w.programOwner;
    words := PushLimbs(words, w.balance, 4);
    words := PushLimbs(words, w.nonce, 4);
    words := words + w.dataHash;
    words := words + [|w.merklePath|];
    ghost var head := words;
    var i := 0;
    while i < |w.merklePath|
      invariant 0 <= i <= |w.merklePath| && words == head + Flat(w.merklePath[..i])
    {
      FlatPush(w.merklePath, i);
      Associative(head, Flat(w.merklePath[..i]), w.merklePath[i]);
      words := words + w.merklePath[i];
      i := i + 1;
    }
    assert w.merklePath[..i] == w.merklePath;
    words := PushLimbs(words, w.leafIndex, 2);
    RightNested(w);
  }

  lemma FlatPush(path: seq<Digest>, i: nat)
    requires i < |path|
    ensures Flat(path[..i + 1]) == Flat(path[..i]) + path[i]
  {
    assert path[..i + 1][..i] == path[..i];
  }

  lemma Nest8<T>(a: seq<T>, b: seq<T>, c: seq<T>, d: seq<T>, e: seq<T>, f: seq<T>, g: seq<T>, h: seq<T>, k: seq<T>)
    ensures a + b + c + d + e + f + g + h + k == a + (b + (c + (d + (e + (f + (g + (h + k)))))))
  {}

  lemma RightNested(w: PrivateInputs)
    ensures Words(w) == w.npk + Limbs(w.identifier, 4) + w.programOwner + Limbs(w.balance, 4) + Limbs(w.nonce, 4)
      + w.dataHash + [|w.merklePath|] + Flat(w.merklePath) + Limbs(w.leafIndex, 2)
  {
    Nest8<nat>(w.npk, Limbs(w.identifier, 4), w.programOwner, Limbs(w.balance, 4), Limbs(w.nonce, 4),
               w.dataHash, [|w.merklePath|], Flat(w.merklePath), Limbs(w.leafIndex, 2));
  }

  // ---- the reader

  /** Each reader returns its value and the words it left. */
  function ReadBytes(words: seq<nat>): Option<(Digest, seq<nat>)> {
    if |words| < 32 || exists i :: 0 <= i < 32 && words[i] >= 0x100 then None
    else Some((words[..32], words[32..]))
  }

  function ReadLimbs(words: seq<nat>, n: nat): Option<(nat, seq<nat>)> {
    if |words| < n || exists i :: 0 <= i < n && words[i] >= WORD then None
    else Some((Val(words[..n], WORD), words[n..]))
  }

  function ReadOwner(words: seq<nat>): Option<(ProgramId, seq<nat>)> {
    if |words| < 8 || exists i :: 0 <= i < 8 && words[i] >= WORD then None
    else Some((words[..8], words[8..]))
  }

  function ReadPath(words: seq<nat>, n: nat): Option<(seq<Digest>, seq<nat>)>
    decreases n
  {
    if n == 0 then Some(([], words))
    else match ReadBytes(words)
      case None => None
      case Some((d, rest)) => match ReadPath(rest, n - 1)
        case None => None
        case Some((ds, rest')) => Some(([d] + ds, rest'))
  }

  function ReadU128(words: seq<nat>): Option<(U128, seq<nat>)> {
    match ReadLimbs(words, 4)
    case Some((v, rest)) => if v < 0x1_0000_0000_0000_0000_0000_0000_0000_0000 then Some((v, rest)) else None
    case None => None
  }

  function ReadU64(words: seq<nat>): Option<(U64, seq<nat>)> {
    match ReadLimbs(words, 2)
    case Some((v, rest)) => if v < 0x1_0000_0000_0000_0000 then Some((v, rest)) else None
    case None => None
  }

  /** The path, with its length word, and the leaf index. */
  function ReadAnchor(words: seq<nat>): Option<(seq<Digest>, U64, seq<nat>)> {
    if words == [] then None
    else match ReadPath(words[1..], words[0])
      case None => None
      case Some((path, rest)) => match ReadU64(rest)
        case None => None
        case Some((i, rest')) => Some((path, i, rest'))
  }

  /** Balance, nonce and data hash. */
  function ReadState(words: seq<nat>): Option<(U128, U128, Digest, seq<nat>)> {
    match ReadU128(words)
    case None => None
    case Some((balance, w1)) => match ReadU128(w1)
    case None => None
    case Some((nonce, w2)) => match ReadBytes(w2)
    case None => None
    case Some((dataHash, w3)) => Some((balance, nonce, dataHash, w3))
  }

  /** Public key, identifier and owner. */
  function ReadAccount(words: seq<nat>): Option<(Digest, U128, ProgramId, seq<nat>)> {
    match ReadBytes(words)
    case None => None
    case Some((npk, w1)) => match ReadU128(w1)
    case None => None
    case Some((identifier, w2)) => match ReadOwner(w2)
    case None => None
    case Some((owner, w3)) => Some((npk, identifier, owner, w3))
  }

  function ReadWitness(words: seq<nat>): Option<(PrivateInputs, seq<nat>)> {
    match ReadAccount(words)
    case None => None
    case Some((npk, identifier, owner, w1)) => match ReadState(w1)
    case None => None
    case Some((balance, nonce, dataHash, w2)) => match ReadAnchor(w2)
    case None => None
    case Some((path, index, w3)) =>
      Some((PrivateInputs(npk, identifier, owner, balance, nonce, dataHash, path, index), w3))
  }

  // ---- round trip

  lemma BytesRead(b: Digest, rest: seq<nat>)
    ensures ReadBytes(b + rest) == Some((b, rest))
  {
    var words: seq<nat> := b + rest;
    assert words[..32] == b && words[32..] == rest;
    assert forall i :: 0 <= i < 32 ==> words[i] == b[i];
  }

  lemma OwnerRead(o: ProgramId, rest: seq<nat>)
    ensures ReadOwner(o + rest) == Some((o, rest))
  {
    var words: seq<nat> := o + rest;
    assert words[..8] == o && words[8..] == rest;
    assert forall i :: 0 <= i < 8 ==> words[i] == o[i];
  }

  lemma LimbsRead(v: nat, n: nat, rest: seq<nat>)
    requires v < Pow(WORD, n)
    ensures ReadLimbs(Limbs(v, n) + rest, n) == Some((v, rest))
  {
    var ls := Limbs(v, n);
    var words := ls + rest;
    assert words[..n] == ls && words[n..] == rest;
    assert forall i :: 0 <= i < n ==> words[i] == ls[i];
    ValOfFixed(v, WORD, n);
  }

  lemma U128Read(v: U128, rest: seq<nat>)
    ensures ReadU128(Limbs(v, 4) + rest) == Some((v, rest))
  {
    assert Pow(WORD, 2) == 0x1_0000_0000_0000_0000;
    PowAdd(WORD, 2, 2);
    LimbsRead(v, 4, rest);
  }

  lemma U64Read(v: U64, rest: seq<nat>)
    ensures ReadU64(Limbs(v, 2) + rest) == Some((v, rest))
  {
    assert Pow(WORD, 2) == 0x1_0000_0000_0000_0000;
    LimbsRead(v, 2, rest);
  }

  lemma {:induction false} FlatCons(path: seq<Digest>)
    requires path != []
    ensures Flat(path) == path[0] + Flat(path[1..])
  {
    var n := |path| - 1;
    if n == 0 {
      assert path[..0] == [] && path[1..] == [];
    } else {
      FlatCons(path[..n]);
      assert path[..n][1..] == path[1..][..n - 1];
      Associative<nat>(path[0], Flat(path[1..][..n - 1]), path[n]);
    }
  }

  lemma {:induction false} PathRead(path: seq<Digest>, rest: seq<nat>)
    ensures ReadPath(Flat(path) + rest, |path|) == Some((path, rest))
    decreases |path|
  {
    if path == [] {
      assert Flat(path) + rest == rest;
    } else {
      FlatCons(path);
      Associative<nat>(path[0], Flat(path[1..]), rest);
      BytesRead(path[0], Flat(path[1..]) + rest);
      PathRead(path[1..], rest);
      assert path == [path[0]] + path[1..];
    }
  }

  lemma AnchorRead(path: seq<Digest>, index: U64, rest: seq<nat>)
    ensures ReadAnchor([|path|] + (Flat(path) + (Limbs(index, 2) + rest))) == Some((path, index, rest))
  {
    PathRead(path, Limbs(index, 2) + rest);
    U64Read(index, rest);
    var words := [|path|] + (Flat(path) + (Limbs(index, 2) + rest));
    assert words[1..] == Flat(path) + (Limbs(index, 2) + rest);
  }

  lemma AccountRead(npk: Digest, identifier: U128, owner: ProgramId, rest: seq<nat>)
    ensures ReadAccount(npk + (Limbs(identifier, 4) + (owner + rest))) == Some((npk, identifier, owner, rest))
  {
    BytesRead(npk, Limbs(identifier, 4) + (owner + rest));
    U128Read(identifier, owner + rest);
    OwnerRead(owner, rest);
  }

  lemma StateRead(balance: U128, nonce: U128, dataHash: Digest, rest: seq<nat>)
    ensures ReadState(Limbs(balance, 4) + (Limbs(nonce, 4) + (dataHash + rest)))
      == Some((balance, nonce, dataHash, rest))
  {
    U128Read(balance, Limbs(nonce, 4) + (dataHash + rest));
    U128Read(nonce, dataHash + rest);
    BytesRead(dataHash, rest);
  }

  /** Reading what the serialiser wrote gives the witness back, having consumed 87 words and 32 more per
      sibling, and leaves exactly what followed. */
  lemma WitnessRead(w: PrivateInputs, rest: seq<nat>)
    ensures ReadWitness(Words(w) + rest) == Some((w, rest))
    ensures |Words(w)| == 87 + 32 * |w.merklePath|
  {
    var w2 := [|w.merklePath|] + (Flat(w.merklePath) + (Limbs(w.leafIndex, 2) + rest));
    var w1 := Limbs(w.balance, 4) + (Limbs(w.nonce, 4) + (w.dataHash + w2));
    WordsThenRest(w, rest);
    AccountRead(w.npk, w.identifier, w.programOwner, w1);
    StateRead(w.balance, w.nonce, w.dataHash, w2);
    AnchorRead(w.merklePath, w.leafIndex, rest);
  }

  lemma WordsThenRest(w: PrivateInputs, rest: seq<nat>)
    ensures Words(w) + rest
      == w.npk + (Limbs(w.identifier, 4) + (w.programOwner + (Limbs(w.balance, 4) + (Limbs(w.nonce, 4) +
      (w.dataHash + ([|w.merklePath|] + (Flat(w.merklePath) + (Limbs(w.leafIndex, 2) + rest))))))))
  {
    NestRest<nat>(w.npk, Limbs(w.identifier, 4), w.programOwner, Limbs(w.balance, 4), Limbs(w.nonce, 4),
                  w.dataHash, [|w.merklePath|], Flat(w.merklePath), Limbs(w.leafIndex, 2), rest);
  }

  lemma NestRest<T>(a: seq<T>, b: seq<T>, c: seq<T>, d: seq<T>, e: seq<T>, f: seq<T>, g: seq<T>, h: seq<T>, k: seq<T>,
                    r: seq<T>)
    ensures a + (b + (c + (d + (e + (f + (g + (h + k))))))) + r == a + (b + (c + (d + (e + (f + (g + (h + (k + r))))))))
  {}

  /** Different witnesses have different words: no serialisation is even a proper prefix of another's. */
  lemma WordsInjective(w: PrivateInputs, v: PrivateInputs, rest: seq<nat>)
    requires Words(w) == Words(v) + rest
    ensures w == v && rest == []
  {
    WitnessRead(w, []);
    WitnessRead(v, rest);
    AppendNothing(Words(w));
  }

  lemma AppendNothing<T>(s: seq<T>)
    ensures s + [] == s
  {}
}
