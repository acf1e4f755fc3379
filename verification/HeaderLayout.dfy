/** Where every field of a header lies in the bytes that are hashed, read back as hexadecimal
    digits and little-endian numbers. */
module HeaderLayout {
  import opened Wrappers
  import opened Digits
  import opened Words
  import Merkle
  import opened Pom
  import opened Order
  import opened Possession
  import opened Target
  import opened Header

  const HEX_LOWER: string := "0123456789abcdef"
  const HEX_UPPER: string := "0123456789ABCDEF"

  // ---- hexadecimal ----

  lemma NibbleReadsDigit(d: nat)
    requires d < 16
    ensures Nibble(HEX_LOWER[d]) == Some(d) && Nibble(HEX_UPPER[d]) == Some(d)
  {
  }

  /** Byte `i` of a hexadecimal string is its digit pair, high digit first, in either case. */
  lemma HexReadsPairs(s: string, i: nat, hi: nat, lo: nat)
    requires IsHex(s) && 2 * i + 1 < |s| && hi < 16 && lo < 16
    requires s[2 * i] in {HEX_LOWER[hi], HEX_UPPER[hi]} && s[2 * i + 1] in {HEX_LOWER[lo], HEX_UPPER[lo]}
    ensures HexBytes(s)[i] == 16 * hi + lo
  {
    hide Nibble, HEX_LOWER, HEX_UPPER;
    NibbleReadsDigit(hi);
    NibbleReadsDigit(lo);
  }

  /** A string with an odd number of digits reads as if a zero digit came first. */
  lemma OddHexReadsPairs(s: string, i: nat, hi: nat, lo: nat)
    requires IsHex(Padded(s)) && |s| % 2 == 1 && 2 * i < |s| && hi < 16 && lo < 16
    requires if i == 0 then hi == 0 else s[2 * i - 1] in {HEX_LOWER[hi], HEX_UPPER[hi]}
    requires s[2 * i] in {HEX_LOWER[lo], HEX_UPPER[lo]}
    ensures HexBytes(Padded(s))[i] == 16 * hi + lo
  {
    hide Nibble, HEX_LOWER, HEX_UPPER, HexBytes;
    ZeroDigit();
    HexReadsPairs(Padded(s), i, hi, lo);
  }

  lemma ZeroDigit()
    ensures HEX_LOWER[0] == '0'
  {
  }

  // ---- positions ----

  /** The number that the bytes `from..to` denote, least significant first. */
  function NumberAt(b: seq<u8>, from: nat, to: nat): nat
    requires from <= to <= |b|
  {
    Value(256, b[from..to])
  }

  lemma LeDenotes(x: nat, n: nat, p: nat)
    requires p == Pow(256, n) && x < p
    ensures Value(256, Le(x, n)) == x
  {
    ValueToDigits(256, x, n);
  }

  /** Where the first `n` levels of parents end: after two bytes of version and eight of count,
      eight bytes and 32 for every hash of each. */
  function LevelEnd(parents: seq<seq<string>>, n: nat): nat
    requires n <= |parents|
  {
    if n == 0 then 10 else LevelEnd(parents, n - 1) + 8 + 32 * |parents[n - 1]|
  }

  lemma LevelLength(l: seq<Merkle.Digest>)
    ensures |Level(l)| == 8 + 32 * |l|
  {
    ConcatLength(l);
  }

  lemma {:induction false} LevelsSplit(parents: seq<seq<Merkle.Digest>>, n: nat)
    requires n <= |parents|
    ensures Levels(parents) == Levels(parents[..n]) + Levels(parents[n..])
    decreases n
  {
    hide Level;
    if n == 0 {
      assert parents[..0] == [] && parents[0..] == parents;
    } else {
      var rest := parents[1..];
      LevelsSplit(rest, n - 1);
      assert rest[..n - 1] == parents[..n][1..] && rest[n - 1..] == parents[n..];
      Associates(Level(parents[0]), Levels(rest[..n - 1]), Levels(rest[n - 1..]));
    }
  }

  lemma Associates(a: seq<u8>, b: seq<u8>, c: seq<u8>)
    ensures a + (b + c) == (a + b) + c
  {
  }

  lemma {:induction false} LevelsLength(h: RpcHeader, n: nat)
    requires Serialisable(h) && n <= |h.parents|
    ensures 10 + |Levels(FieldsOf(h).parents[..n])| == LevelEnd(h.parents, n)
    decreases n
  {
    hide Level, HashOf, HexBytes;
    var ps := FieldsOf(h).parents;
    if n == 0 {
      assert ps[..0] == [];
    } else {
      LevelsLength(h, n - 1);
      assert ps[..n] == ps[..n - 1] + [ps[n - 1]];
      LevelsSnoc(ps[..n - 1], ps[n - 1]);
      LevelLength(ps[n - 1]);
    }
  }

  lemma SliceOf(b: seq<u8>, pre: seq<u8>, mid: seq<u8>, post: seq<u8>)
    requires b == pre + (mid + post)
    ensures b[|pre|..|pre| + |mid|] == mid && b[|pre| + |mid|..] == post
  {
  }

  lemma SliceFrom(b: seq<u8>, o: nat, e: seq<u8>, from: nat, to: nat)
    requires o <= |b| && b[o..] == e && from <= to <= |e|
    ensures o + to <= |b| && b[o + from..o + to] == e[from..to]
  {
    var u, v := b[o + from..o + to], e[from..to];
    assert |u| == |v|;
    forall i | 0 <= i < |v| ensures u[i] == v[i] {
      assert b[o..][from + i] == b[o + from + i];
    }
  }

  lemma SliceWithin(b: seq<u8>, o: nat, n: nat, from: nat, to: nat)
    requires o + n <= |b| && from <= to <= n
    ensures b[o..o + n][from..to] == b[o + from..o + to]
  {
    var u, v := b[o..o + n][from..to], b[o + from..o + to];
    assert |u| == |v|;
    forall i | 0 <= i < |v| ensures u[i] == v[i] {
      assert b[o..o + n][from + i] == b[o + from + i];
    }
  }

  lemma DropFrom(b: seq<u8>, o: nat, e: seq<u8>, from: nat)
    requires o <= |b| && b[o..] == e && from <= |e|
    ensures o + from <= |b| && b[o + from..] == e[from..]
  {
    SliceFrom(b, o, e, from, |e|);
  }

  lemma Regrouped(a: seq<u8>, b: seq<u8>, c: seq<u8>, d: seq<u8>)
    ensures a + (b + (c + d)) == (a + (b + c)) + d
  {
  }

  // The bytes that come before the roots.
  function Front(h: RpcHeader): seq<u8>
    requires Serialisable(h)
  {
    Le(h.version, 2) + (Le(|h.parents|, 8) + Levels(FieldsOf(h).parents))
  }

  lemma FrontFirst(h: RpcHeader, prePow: bool)
    requires Serialisable(h)
    ensures Bytes(FieldsOf(h), prePow) == Front(h) + Tail(FieldsOf(h), prePow)
    ensures |Front(h)| == LevelEnd(h.parents, |h.parents|)
  {
    hide Levels, Tail, Le, FieldsOf;
    var f := FieldsOf(h);
    FieldNumbers(h);
    assert f.parents[..|f.parents|] == f.parents;
    LevelsLength(h, |f.parents|);
    hide LevelEnd;
    Regrouped(Le(f.version, 2), Le(|f.parents|, 8), Levels(f.parents), Tail(f, prePow));
  }

  // What follows the parents.
  lemma TailFollows(h: RpcHeader, prePow: bool)
    requires Serialisable(h)
    ensures var b, o := Bytes(FieldsOf(h), prePow), LevelEnd(h.parents, |h.parents|);
      o <= |b| && b[o..] == Tail(FieldsOf(h), prePow)
  {
    FrontFirst(h, prePow);
    hide *;
  }

  /** Version and number of levels come first. */
  lemma StartLayout(h: RpcHeader, prePow: bool)
    requires Serialisable(h) && |h.parents| < WORD
    ensures var b := Bytes(FieldsOf(h), prePow);
      |b| >= 10 && NumberAt(b, 0, 2) == h.version && NumberAt(b, 2, 10) == |h.parents|
  {
    hide Levels, Tail, Le, HashOf, HexBytes, Pow;
    var f := FieldsOf(h);
    var b, rest := Bytes(f, prePow), Levels(f.parents) + Tail(f, prePow);
    WordPowers();
    Small();
    assert b[0..2] == Le(h.version, 2) && b[2..10] == Le(|h.parents|, 8);
    LeDenotes(h.version, 2, Pow(256, 2));
    LeDenotes(|h.parents|, 8, Pow(256, 8));
  }

  // The bytes of one level, where they lie.
  lemma LevelBytes(h: RpcHeader, prePow: bool, i: nat)
    requires Serialisable(h) && i < |h.parents|
    ensures |FieldsOf(h).parents| == |h.parents| && |FieldsOf(h).parents[i]| == |h.parents[i]|
    ensures var b, o, l := Bytes(FieldsOf(h), prePow), LevelEnd(h.parents, i), Level(FieldsOf(h).parents[i]);
      o + |l| <= |b| && b[o..o + |l|] == l
  {
    hide Serialisable, Levels, Level, Bytes, FieldsOf;
    LevelCount(h, i);
    LevelAt(FieldsOf(h), prePow, i);
    LevelsLength(h, i);
  }

  /** Each level of parents is its length, least significant byte first, and then its hashes. */
  lemma LevelLayout(h: RpcHeader, prePow: bool, i: nat)
    requires Serialisable(h) && i < |h.parents| && |h.parents[i]| < WORD
    ensures var b, o := Bytes(FieldsOf(h), prePow), LevelEnd(h.parents, i);
      o + 8 + 32 * |h.parents[i]| <= |b| && NumberAt(b, o, o + 8) == |h.parents[i]|
  {
    hide Serialisable, Bytes, FieldsOf, Le, LevelEnd, Level, NumberAt;
    LevelBytes(h, prePow, i);
    LevelStarts(FieldsOf(h).parents[i]);
    NumberFirst(Bytes(FieldsOf(h), prePow), LevelEnd(h.parents, i), Level(FieldsOf(h).parents[i]), |h.parents[i]|);
  }

  lemma NumberFirst(b: seq<u8>, o: nat, l: seq<u8>, n: nat)
    requires o + |l| <= |b| && b[o..o + |l|] == l && n < WORD && |l| >= 8 && l[..8] == Le(n, 8)
    ensures NumberAt(b, o, o + 8) == n
  {
    hide Le, Pow, Value;
    WordPowers();
    SliceWithin(b, o, |l|, 0, 8);
    LeDenotes(n, 8, Pow(256, 8));
  }

  /** The hashes of a level of parents follow its length, in order. */
  lemma ParentLayout(h: RpcHeader, prePow: bool, i: nat, j: nat)
    requires Serialisable(h) && i < |h.parents| && j < |h.parents[i]|
    ensures var b, o := Bytes(FieldsOf(h), prePow), LevelEnd(h.parents, i) + 8 + 32 * j;
      o + 32 <= |b| && b[o..o + 32] == HexBytes(h.parents[i][j])
  {
    hide Serialisable, Bytes, FieldsOf, HexBytes, LevelEnd, Level;
    LevelBytes(h, prePow, i);
    ParentHash(h, i, j);
    var b, o, l := Bytes(FieldsOf(h), prePow), LevelEnd(h.parents, i), FieldsOf(h).parents[i];
    HashIn(l, j);
    SliceWithin(b, o, |Level(l)|, 8 + 32 * j, 8 + 32 * j + 32);
  }

  lemma LevelCount(h: RpcHeader, i: nat)
    requires Serialisable(h) && i < |h.parents|
    ensures |FieldsOf(h).parents| == |h.parents| && |FieldsOf(h).parents[i]| == |h.parents[i]|
  {
    hide HashOf, HexBytes;
  }

  lemma ParentHash(h: RpcHeader, i: nat, j: nat)
    requires Serialisable(h) && i < |h.parents| && j < |h.parents[i]|
    ensures |FieldsOf(h).parents| == |h.parents| && |FieldsOf(h).parents[i]| == |h.parents[i]|
    ensures FieldsOf(h).parents[i][j] == HexBytes(h.parents[i][j])
  {
    hide HexBytes;
  }

  lemma LevelAt(f: Fields, prePow: bool, i: nat)
    requires i < |f.parents|
    ensures var b, l, o := Bytes(f, prePow), Level(f.parents[i]), 10 + |Levels(f.parents[..i])|;
      o + |l| <= |b| && b[o..o + |l|] == l
  {
    hide Level, Tail, Le;
    var ps := f.parents;
    LevelsSplit(ps, i);
    LevelsFirst(ps, i);
    hide Levels;
    Placed(Le(f.version, 2), Le(|ps|, 8), Levels(ps[..i]), Level(ps[i]), Levels(ps[i..][1..]), Tail(f, prePow));
  }

  lemma LevelsFirst(ps: seq<seq<Merkle.Digest>>, i: nat)
    requires i < |ps|
    ensures Levels(ps[i..]) == Level(ps[i]) + Levels(ps[i..][1..])
  {
    hide Level;
    assert ps[i..][0] == ps[i];
  }

  // The fourth of six parts.
  lemma Placed(a: seq<u8>, b: seq<u8>, c: seq<u8>, d: seq<u8>, e: seq<u8>, t: seq<u8>)
    ensures var s, o := a + (b + ((c + (d + e)) + t)), |a| + |b| + |c|;
      o + |d| <= |s| && s[o..o + |d|] == d
  {
    Associates(c, d, e);
    assert a + (b + ((c + (d + e)) + t)) == (a + (b + c)) + (d + (e + t)) by {
      assert (c + (d + e)) + t == c + (d + (e + t)) by {
        Associates(c, d + e, t);
        Associates(d, e, t);
      }
      Regrouped(a, b, c, d + (e + t));
    }
    SliceOf((a + (b + c)) + (d + (e + t)), a + (b + c), d, e + t);
  }

  lemma LevelStarts(l: seq<Merkle.Digest>)
    ensures |Level(l)| == 8 + 32 * |l| && Level(l)[..8] == Le(|l|, 8) && Level(l)[8..] == Concat(l)
  {
    ConcatLength(l);
    hide Concat, Le;
  }

  lemma {:induction false} HashIn(l: seq<Merkle.Digest>, j: nat)
    requires j < |l|
    ensures |Level(l)| == 8 + 32 * |l| && Level(l)[8 + 32 * j..8 + 32 * j + 32] == l[j]
  {
    LevelStarts(l);
    HashInConcat(l, j);
    hide Concat, Le, Level;
    SliceFrom(Level(l), 8, Concat(l), 32 * j, 32 * j + 32);
  }

  lemma {:induction false} HashInConcat(l: seq<Merkle.Digest>, j: nat)
    requires j < |l|
    ensures |Concat(l)| == 32 * |l| && Concat(l)[32 * j..32 * j + 32] == l[j]
    decreases |l|
  {
    ConcatLength(l);
    ConcatLength(l[..|l| - 1]);
    if j < |l| - 1 {
      HashInConcat(l[..|l| - 1], j);
    }
  }

  /** The three roots follow the parents: merkle root, accepted-id root, utxo commitment. */
  lemma RootsLayout(h: RpcHeader, prePow: bool)
    requires Serialisable(h)
    ensures var b, o := Bytes(FieldsOf(h), prePow), LevelEnd(h.parents, |h.parents|);
      && o + 96 <= |b|
      && b[o..o + 32] == HexBytes(h.hashMerkleRoot)
      && b[o + 32..o + 64] == HexBytes(h.acceptedIdMerkleRoot)
      && b[o + 64..o + 96] == HexBytes(h.utxoCommitment)
  {
    hide Bytes, Tail, LevelEnd, HexBytes, FieldsOf;
    TailFollows(h, prePow);
    TailRead(h, prePow);
    var b, o, t := Bytes(FieldsOf(h), prePow), LevelEnd(h.parents, |h.parents|), Tail(FieldsOf(h), prePow);
    SliceFrom(b, o, t, 0, 32);
    SliceFrom(b, o, t, 32, 64);
    SliceFrom(b, o, t, 64, 96);
  }

  lemma TailRead(h: RpcHeader, prePow: bool)
    requires Serialisable(h)
    ensures var t := Tail(FieldsOf(h), prePow);
      && |t| >= 96 && t[0..32] == HexBytes(h.hashMerkleRoot) && t[32..64] == HexBytes(h.acceptedIdMerkleRoot)
      && t[64..96] == HexBytes(h.utxoCommitment) && t[96..] == Numbers(FieldsOf(h), prePow)
  {
    FieldRoots(h);
    hide Numbers, HexBytes, FieldsOf;
    var f := FieldsOf(h);
    ThreeParts(f.hashMerkleRoot, f.acceptedIdMerkleRoot, f.utxoCommitment, Numbers(f, prePow));
  }

  lemma FieldRoots(h: RpcHeader)
    requires Serialisable(h)
    ensures var f := FieldsOf(h);
      && f.hashMerkleRoot == HexBytes(h.hashMerkleRoot) && f.acceptedIdMerkleRoot == HexBytes(h.acceptedIdMerkleRoot)
      && f.utxoCommitment == HexBytes(h.utxoCommitment)
  {
    hide HexBytes, LevelOf;
  }

  lemma ThreeParts(a: seq<u8>, b: seq<u8>, c: seq<u8>, d: seq<u8>)
    requires |a| == 32 && |b| == 32 && |c| == 32
    ensures var t := a + (b + (c + d));
      |t| >= 96 && t[0..32] == a && t[32..64] == b && t[64..96] == c && t[96..] == d
  {
  }

  lemma NumbersFollow(h: RpcHeader, prePow: bool)
    requires Serialisable(h)
    ensures var b, o := Bytes(FieldsOf(h), prePow), LevelEnd(h.parents, |h.parents|) + 96;
      o <= |b| && b[o..] == Numbers(FieldsOf(h), prePow)
  {
    hide Bytes, Tail, Numbers, LevelEnd, HexBytes, FieldsOf;
    TailFollows(h, prePow);
    TailRead(h, prePow);
    DropFrom(Bytes(FieldsOf(h), prePow), LevelEnd(h.parents, |h.parents|), Tail(FieldsOf(h), prePow), 96);
  }

  /** Then time, bits, nonce, DAA score and blue score, time and nonce zero before the proof of
      work. */
  lemma NumbersLayout(h: RpcHeader, prePow: bool)
    requires Serialisable(h)
    ensures var b, o := Bytes(FieldsOf(h), prePow), LevelEnd(h.parents, |h.parents|) + 96;
      && o + 36 <= |b|
      && NumberAt(b, o, o + 8) == (if prePow then 0 else Unsigned(h.timestamp))
      && NumberAt(b, o + 8, o + 12) == h.bits
      && NumberAt(b, o + 12, o + 20) == (if prePow then 0 else h.nonce)
      && NumberAt(b, o + 20, o + 28) == h.daaScore && NumberAt(b, o + 28, o + 36) == h.blueScore
  {
    hide Bytes, Numbers, Value, FieldsOf, LevelEnd;
    var b, o, n := Bytes(FieldsOf(h), prePow), LevelEnd(h.parents, |h.parents|) + 96, Numbers(FieldsOf(h), prePow);
    NumbersFollow(h, prePow);
    NumbersRead(FieldsOf(h), prePow);
    FieldNumbers(h);
    SliceFrom(b, o, n, 0, 8);
    SliceFrom(b, o, n, 8, 12);
    SliceFrom(b, o, n, 12, 20);
    SliceFrom(b, o, n, 20, 28);
    SliceFrom(b, o, n, 28, 36);
  }

  lemma FieldNumbers(h: RpcHeader)
    requires Serialisable(h)
    ensures var f := FieldsOf(h);
      && |f.parents| == |h.parents| && f.version == h.version && f.timestamp == h.timestamp
      && f.bits == h.bits && f.nonce == h.nonce
      && f.daaScore == h.daaScore && f.blueScore == h.blueScore && f.finalState == h.finalState
  {
    hide HexBytes, HashOf, LevelOf;
  }

  lemma NumbersRead(f: Fields, prePow: bool)
    ensures var n := Numbers(f, prePow);
      && |n| >= 36
      && NumberAt(n, 0, 8) == (if prePow then 0 else Unsigned(f.timestamp)) && NumberAt(n, 8, 12) == f.bits
      && NumberAt(n, 12, 20) == (if prePow then 0 else f.nonce)
      && NumberAt(n, 20, 28) == f.daaScore && NumberAt(n, 28, 36) == f.blueScore
  {
    hide Le, End, Pow, Value;
    WordPowers();
    assert Pow(256, 4) == 0x1_0000_0000 by { PowAdd(256, 2, 2); Small(); }
    var n := Numbers(f, prePow);
    var t, c := if prePow then 0 else Unsigned(f.timestamp), if prePow then 0 else f.nonce;
    assert n[0..8] == Le(t, 8) && n[8..12] == Le(f.bits, 4) && n[12..20] == Le(c, 8);
    assert n[20..28] == Le(f.daaScore, 8) && n[28..36] == Le(f.blueScore, 8);
    LeDenotes(t, 8, Pow(256, 8));
    LeDenotes(f.bits, 4, Pow(256, 4));
    LeDenotes(c, 8, Pow(256, 8));
    LeDenotes(f.daaScore, 8, Pow(256, 8));
    LeDenotes(f.blueScore, 8, Pow(256, 8));
  }

  /** Then the length of the blue work, the blue work, the pruning point, and, in the full form
      from H3 on, the final state; and nothing else. */
  lemma EndLayout(h: RpcHeader, prePow: bool)
    requires Serialisable(h)
    ensures var b, o := Bytes(FieldsOf(h), prePow), LevelEnd(h.parents, |h.parents|) + 132;
      var w := HexBytes(Padded(h.blueWork));
      && |b| == o + 8 + |w| + 32 + (if !prePow && h.daaScore >= 43_450_000 then 8 else 0)
      && NumberAt(b, o, o + 8) == |w| && b[o + 8..o + 8 + |w|] == w
      && b[o + 8 + |w|..o + 40 + |w|] == HexBytes(h.pruningPoint)
      && (!prePow && h.daaScore >= 43_450_000 ==> NumberAt(b, o + 40 + |w|, o + 48 + |w|) == h.finalState)
  {
    hide Bytes, End, Value, FieldsOf, HexBytes, Padded, LevelEnd;
    var b, o, w := Bytes(FieldsOf(h), prePow), LevelEnd(h.parents, |h.parents|) + 132, HexBytes(Padded(h.blueWork));
    var e := End(FieldsOf(h), prePow);
    EndFollows(h, prePow);
    EndRead(h, prePow);
    SliceFrom(b, o, e, 0, 8);
    SliceFrom(b, o, e, 8, 8 + |w|);
    SliceFrom(b, o, e, 8 + |w|, 40 + |w|);
    if !prePow && h.daaScore >= 43_450_000 {
      SliceFrom(b, o, e, 40 + |w|, 48 + |w|);
    }
  }

  lemma EndFollows(h: RpcHeader, prePow: bool)
    requires Serialisable(h)
    ensures var b, o := Bytes(FieldsOf(h), prePow), LevelEnd(h.parents, |h.parents|) + 132;
      o <= |b| && b[o..] == End(FieldsOf(h), prePow)
  {
    hide Bytes, Numbers, End, LevelEnd, FieldsOf;
    NumbersFollow(h, prePow);
    EndOfNumbers(FieldsOf(h), prePow);
    DropFrom(Bytes(FieldsOf(h), prePow), LevelEnd(h.parents, |h.parents|) + 96, Numbers(FieldsOf(h), prePow), 36);
  }

  lemma EndOfNumbers(f: Fields, prePow: bool)
    ensures |Numbers(f, prePow)| >= 36 && Numbers(f, prePow)[36..] == End(f, prePow)
  {
    hide Le, End;
  }

  lemma EndRead(h: RpcHeader, prePow: bool)
    requires Serialisable(h)
    ensures var e, w := End(FieldsOf(h), prePow), HexBytes(Padded(h.blueWork));
      && |e| == 8 + |w| + 32 + (if !prePow && h.daaScore >= 43_450_000 then 8 else 0)
      && NumberAt(e, 0, 8) == |w| && e[8..8 + |w|] == w && e[8 + |w|..40 + |w|] == HexBytes(h.pruningPoint)
      && (!prePow && h.daaScore >= 43_450_000 ==> NumberAt(e, 40 + |w|, 48 + |w|) == h.finalState)
  {
    hide Le, HexBytes, Levels, Value, Pow, Padded;
    WordPowers();
    var f := FieldsOf(h);
    var e, w := End(f, prePow), HexBytes(Padded(h.blueWork));
    assert e[0..8] == Le(|w|, 8) && e[8..8 + |w|] == w && e[8 + |w|..40 + |w|] == HexBytes(h.pruningPoint);
    LeDenotes(|w|, 8, Pow(256, 8));
    if !prePow && h.daaScore >= 43_450_000 {
      assert e[40 + |w|..48 + |w|] == Le(h.finalState, 8);
      LeDenotes(h.finalState, 8, Pow(256, 8));
    }
  }

  // ---- the mining state ----

  /** The mining state of a block, without the job: the kept bytes are the hash of the
      pre-proof-of-work form, the timestamp modulo 2^64, and 32 zero bytes; the target words
      denote the number of the compact bits; the era is that of the block's score. */
  lemma BlockTemplateHolds(hash: HeaderHash, s: Template, k: u32, t: nat, h: RpcHeader)
    requires TemplateOf(hash, s, k, t) && s.work.Full? && s.work.block.header == Some(h)
    ensures |s.powHeader| == 72 && s.powHeader[..32] == hash(Bytes(FieldsOf(h), true))
    ensures (NumberAt(s.powHeader, 32, 40) - h.timestamp) % 0x1_0000_0000_0000_0000 == 0
    ensures NumberAt(s.powHeader, 40, 72) == 0 && Value(WORD, s.target) == CompactNumber(h.bits)
    ensures s.daaScore >= 43_450_000 <==> h.daaScore >= 43_450_000
  {
    hide Bytes, FieldsOf, Serialisable, CompactNumber, Value, ToBytes, ToLe8, Pow;
    PowHeaderNumbers(hash(Bytes(FieldsOf(h), true)), Unsigned(h.timestamp));
    TargetNumber(s.target, h.bits);
  }

  /** The mining state of a pool share, without the job: the hash words, the time and the target
      are those the pool sent. */
  lemma ShareTemplateHolds(hash: HeaderHash, s: Template, k: u32, t: nat)
    requires TemplateOf(hash, s, k, t) && s.work.Partial?
    ensures |s.powHeader| == 72 && NumberAt(s.powHeader, 0, 32) == Value(WORD, s.work.share.headerHash)
    ensures NumberAt(s.powHeader, 32, 40) == s.work.share.timestamp && NumberAt(s.powHeader, 40, 72) == 0
    ensures Value(WORD, s.target) == Value(WORD, s.work.share.target)
    ensures s.daaScore >= 43_450_000 <==> s.work.share.daaScore >= 43_450_000
  {
    hide Value, ToBytes, ToLe8, Pow;
    PowHeaderNumbers(ToBytes(s.work.share.headerHash), s.work.share.timestamp);
    NumOfWords(s.work.share.headerHash);
    NumOfWords(s.target);
    NumOfWords(s.work.share.target);
  }

  lemma PowHeaderNumbers(pph: Merkle.Digest, time: u64)
    ensures var b := PowHeader(pph, time);
      |b| == 72 && b[..32] == pph && NumberAt(b, 0, 32) == Value(256, pph)
      && NumberAt(b, 32, 40) == time && NumberAt(b, 40, 72) == 0
  {
    hide Value, Pow;
    var b := PowHeader(pph, time);
    assert b[..32] == pph && b[0..32] == pph && b[32..40] == ToLe8(time) && b[40..72] == seq(32, _ => 0);
    WordPowers();
    LeDenotes(time, 8, Pow(256, 8));
    ValueZeros(256, 32);
  }

  lemma TargetNumber(q: Quad, bits: u32)
    requires ToBytes(q) == TargetOf(bits)
    ensures Value(WORD, q) == CompactNumber(bits)
  {
    hide Value, ToBytes, Pow;
    NumOfWords(q);
    CompactFits(bits);
    ValueToDigits(256, CompactNumber(bits), 32);
  }

  lemma CompactFits(bits: u32)
    ensures CompactNumber(bits) < Pow(256, 32)
  {
    PowMonotone(3, 32);
    assert Pow(256, 3) == 0x100_0000;
    PowPow(4);
    BytePower(32);
    hide Pow;
  }

  // ---- the solved block ----

  /** The bytes of a solved block commit to the nonce and, from H3 on, to the proof's final state
      as their last eight; the header is otherwise the one the node sent. */
  lemma SolvedBlockBytes(w: Work, w': Work, h: RpcHeader, nonce: u64, p: PomProof)
    requires HasJob(w) && Solves(w, w', nonce, p) && w.Full? && w.block.header == Some(h)
    ensures w'.Full? && w'.block.header.Some? && w'.block.proof == Some(p) && Serialisable(w'.block.header.value)
    ensures w'.block.header.value.(nonce := h.nonce, finalState := h.finalState) == h
    ensures var b, o := Bytes(FieldsOf(w'.block.header.value), false), LevelEnd(h.parents, |h.parents|);
      && o + 116 <= |b| && NumberAt(b, o + 108, o + 116) == nonce
      && if h.daaScore >= 43_450_000 then NumberAt(b, |b| - 8, |b|) == p.finalState
         else w'.block.header.value.finalState == h.finalState
  {
    hide Bytes, FieldsOf, LevelEnd, NumberAt, Padded, IsHash;
    var h' := w'.block.header.value;
    hide HexBytes, Serialisable;
    NumbersLayout(h', false);
    EndLayout(h', false);
  }
}
