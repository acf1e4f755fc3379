/** The folds of the possession proof as one absorption: each input in turn is xored into the
    state, and the state is mixed. */
module Folds {
  import opened Digits
  import opened Words
  import opened Merkle
  import opened Pom

  /** The state after absorbing the inputs in order. */
  function Absorb(state: u64, xs: seq<u64>): u64
    decreases |xs|
  {
    if xs == [] then state else Absorb(Mix64(Xor64(state, xs[0])), xs[1..])
  }

  lemma {:induction false} AbsorbConcat(state: u64, xs: seq<u64>, ys: seq<u64>)
    ensures Absorb(state, xs + ys) == Absorb(Absorb(state, xs), ys)
    decreases |xs|
  {
    hide Mix64, Xor64;
    if xs == [] {
      assert xs + ys == ys;
    } else {
      assert (xs + ys)[1..] == xs[1..] + ys;
      AbsorbConcat(Mix64(Xor64(state, xs[0])), xs[1..], ys);
    }
  }

  lemma AbsorbOne(state: u64, x: u64)
    ensures Absorb(state, [x]) == Mix64(Xor64(state, x))
  {
    hide Mix64, Xor64;
    assert [x][1..] == [];
  }

  lemma {:induction false} AbsorbKeepsState(s: u64, t: u64, xs: seq<u64>)
    requires Absorb(s, xs) == Absorb(t, xs)
    ensures s == t
    decreases |xs|
  {
    hide Mix64, Xor64;
    if xs != [] {
      AbsorbKeepsState(Mix64(Xor64(s, xs[0])), Mix64(Xor64(t, xs[0])), xs[1..]);
      MixXorInjective(s, t, xs[0]);
    }
  }

  /** Absorption is injective in every one of its inputs, the others fixed. */
  lemma AbsorbKeepsInput(state: u64, xs: seq<u64>, i: nat, x: u64, y: u64)
    requires i < |xs| && Absorb(state, xs[i := x]) == Absorb(state, xs[i := y])
    ensures x == y
  {
    hide Mix64, Xor64, Absorb;
    var s := Absorb(state, xs[..i]);
    AbsorbAt(state, xs, i, x);
    AbsorbAt(state, xs, i, y);
    AbsorbKeepsState(Mix64(Xor64(s, x)), Mix64(Xor64(s, y)), xs[i + 1..]);
    SameInput(s, x, y);
  }

  lemma AbsorbAt(state: u64, xs: seq<u64>, i: nat, x: u64)
    requires i < |xs|
    ensures Absorb(state, xs[i := x]) == Absorb(Mix64(Xor64(Absorb(state, xs[..i]), x)), xs[i + 1..])
  {
    hide Mix64, Xor64, Absorb;
    assert xs[i := x] == xs[..i] + ([x] + xs[i + 1..]);
    AbsorbConcat(state, xs[..i], [x] + xs[i + 1..]);
    AbsorbConcat(Absorb(state, xs[..i]), [x], xs[i + 1..]);
    AbsorbOne(Absorb(state, xs[..i]), x);
  }

  lemma SameInput(s: u64, x: u64, y: u64)
    requires Mix64(Xor64(s, x)) == Mix64(Xor64(s, y))
    ensures x == y
  {
    hide Mix64;
    XorCommutes(s, x);
    XorCommutes(s, y);
    MixXorInjective(x, y, s);
  }

  // ---- the block seed ----

  /** The hash words of an era. */
  function HashInputs(pph: Digest, h3: bool): (xs: seq<u64>)
    ensures |xs| == 4
  {
    var w := ToWords(pph);
    if !h3 then w
    else [
      Xor64(w[0], 0x7C99D381176D4EC4), Xor64(w[1], 0xC2E28E3E28118C36),
      Xor64(w[2], 0xD496CE1B129B76CA), Xor64(w[3], 0x47CF0979FA580BCE)]
  }

  /** The block seed is the nonce after absorbing the domain constant, the timestamp and the
      four hash words, in that order. */
  lemma BlockSeedAbsorbs(pph: Digest, time: u64, nonce: u64, h3: bool)
    ensures BlockSeed(pph, time, nonce, h3) == Absorb(nonce, [0x4B65727978531, time] + HashInputs(pph, h3))
  {
    hide Mix64, Xor64, ToWords;
    var w := HashInputs(pph, h3);
    var xs := [0x4B65727978531, time, w[0], w[1], w[2], w[3]];
    assert xs == [0x4B65727978531, time] + w;
    AbsorbSix(nonce, xs);
  }

  lemma AbsorbSix(state: u64, xs: seq<u64>)
    requires |xs| == 6
    ensures Absorb(state, xs)
      == Mix64(Xor64(Mix64(Xor64(Mix64(Xor64(Mix64(Xor64(Mix64(Xor64(Mix64(Xor64(
           state, xs[0])), xs[1])), xs[2])), xs[3])), xs[4])), xs[5]))
  {
    hide Mix64, Xor64;
    assert xs[1..][1..] == xs[2..] && xs[2..][1..] == xs[3..] && xs[3..][1..] == xs[4..];
    assert xs[4..][1..] == xs[5..] && xs[5..][1..] == [];
    var s1 := Mix64(Xor64(state, xs[0]));
    var s2 := Mix64(Xor64(s1, xs[1]));
    var s3 := Mix64(Xor64(s2, xs[2]));
    var s4 := Mix64(Xor64(s3, xs[3]));
    var s5 := Mix64(Xor64(s4, xs[4]));
    assert Absorb(state, xs) == Absorb(s1, xs[1..]) == Absorb(s2, xs[2..]) == Absorb(s3, xs[3..]);
    assert Absorb(s3, xs[3..]) == Absorb(s4, xs[4..]) == Absorb(s5, xs[5..]);
    assert xs[5..] == [xs[5]];
    AbsorbOne(s5, xs[5]);
  }

  /** In either era the seed determines the timestamp, the nonce and hash fixed. */
  lemma SeedDeterminesTime(pph: Digest, t: u64, u: u64, nonce: u64, h3: bool)
    requires BlockSeed(pph, t, nonce, h3) == BlockSeed(pph, u, nonce, h3)
    ensures t == u
  {
    hide BlockSeed, Absorb, HashInputs;
    var w := HashInputs(pph, h3);
    BlockSeedAbsorbs(pph, t, nonce, h3);
    BlockSeedAbsorbs(pph, u, nonce, h3);
    var xs := [0x4B65727978531, t] + w;
    assert [0x4B65727978531, t] + w == xs[1 := t] && [0x4B65727978531, u] + w == xs[1 := u];
    AbsorbKeepsInput(nonce, xs, 1, t, u);
  }

  /** In either era the seed determines each word of the hash, everything else fixed. */
  lemma SeedDeterminesHashWord(p: Digest, q: Digest, i: nat, time: u64, nonce: u64, h3: bool)
    requires i < 4 && forall j :: 0 <= j < 4 && j != i ==> ToWords(p)[j] == ToWords(q)[j]
    requires BlockSeed(p, time, nonce, h3) == BlockSeed(q, time, nonce, h3)
    ensures p == q
  {
    hide BlockSeed, Absorb, HashInputs, ToWords, ToBytes;
    var v, w := HashInputs(p, h3), HashInputs(q, h3);
    BlockSeedAbsorbs(p, time, nonce, h3);
    BlockSeedAbsorbs(q, time, nonce, h3);
    OtherInputs(p, q, i, h3);
    var xs := [0x4B65727978531, time] + v;
    assert xs == xs[i + 2 := v[i]] && [0x4B65727978531, time] + w == xs[i + 2 := w[i]];
    AbsorbKeepsInput(nonce, xs, i + 2, v[i], w[i]);
    SameHash(p, q, h3);
  }

  lemma OtherInputs(p: Digest, q: Digest, i: nat, h3: bool)
    requires i < 4 && forall j :: 0 <= j < 4 && j != i ==> ToWords(p)[j] == ToWords(q)[j]
    ensures forall j :: 0 <= j < 4 && j != i ==> HashInputs(p, h3)[j] == HashInputs(q, h3)[j]
  {
    hide ToWords, Xor64;
  }

  lemma SameHash(p: Digest, q: Digest, h3: bool)
    requires forall j :: 0 <= j < 4 ==> HashInputs(p, h3)[j] == HashInputs(q, h3)[j]
    ensures p == q
  {
    hide ToBytes;
    hide ToWords, Xor64;
    var v, w := ToWords(p), ToWords(q);
    assert HashInputs(p, h3)[0] == HashInputs(q, h3)[0] && HashInputs(p, h3)[1] == HashInputs(q, h3)[1];
    assert HashInputs(p, h3)[2] == HashInputs(q, h3)[2] && HashInputs(p, h3)[3] == HashInputs(q, h3)[3];
    BytesOfWords(p);
    BytesOfWords(q);
    if h3 {
      Xor64Injective(v[0], w[0], 0x7C99D381176D4EC4);
      Xor64Injective(v[1], w[1], 0xC2E28E3E28118C36);
      Xor64Injective(v[2], w[2], 0xD496CE1B129B76CA);
      Xor64Injective(v[3], w[3], 0x47CF0979FA580BCE);
    }
    assert v == w;
  }

  // ---- the proof-of-work value ----

  /** What each word of the value absorbs besides the words before it. */
  function PowInputs(pph: Digest, h3: bool): (xs: seq<u64>)
    ensures |xs| == 4
  {
    var w := HashInputs(pph, h3);
    [Xor64(w[0], 0x9E3779B97F4A7C15), Xor64(w[1], 0xC2B2AE3D27D4EB4F),
     Xor64(w[2], 0x165667B19E3779F9), Xor64(w[3], 0xD6E8FEB86659FD93)]
  }

  /** Word `i` of the value is the final state after absorbing the first `i + 1` hash words, each
      with its own constant. */
  lemma PowValueAbsorbs(final: u64, pph: Digest, h3: bool, i: nat)
    requires i < 4
    ensures ToWords(PowValue(final, pph, h3))[i] == Absorb(final, PowInputs(pph, h3)[..i + 1])
  {
    hide Absorb, PowInputs, ToBytes, ToWords, Mix64, Xor64;
    WordsOfBytes(PowFold(final, EraWords(pph, h3)));
    var xs := PowInputs(pph, h3);
    var state := if i == 0 then final else Absorb(final, xs[..i]);
    if i > 0 {
      PowValueAbsorbs(final, pph, h3, i - 1);
    }
    PowWord(final, pph, h3, i, state);
    assert xs[..i + 1] == xs[..i] + [xs[i]];
    AbsorbConcat(final, xs[..i], [xs[i]]);
    AbsorbNothing(final);
    assert xs[..0] == [];
    AbsorbOne(state, xs[i]);
  }

  lemma AbsorbNothing(state: u64)
    ensures Absorb(state, []) == state
  {
  }

  lemma PowWord(final: u64, pph: Digest, h3: bool, i: nat, state: u64)
    requires i < 4 && state == if i == 0 then final else PowFold(final, EraWords(pph, h3))[i - 1]
    ensures PowFold(final, EraWords(pph, h3))[i] == Mix64(Xor64(state, PowInputs(pph, h3)[i]))
  {
    hide Mix64, ToWords, Xor;
    var w := HashInputs(pph, h3);
    assert EraWords(pph, h3) == w;
    XorAssociates(state, w[i], POW_CONSTANTS[i]);
  }

  // ---- the walk's step ----

  /** A step absorbs the exclusive or of the chunk's four words. */
  lemma TransitionAbsorbs(state: u64, c: Quad)
    ensures Transition(state, c) == Absorb(state, [Xor64(Xor64(c[0], c[1]), Xor64(c[2], c[3]))])
  {
    hide Mix64, Xor, Absorb;
    AbsorbOne(state, Xor64(Xor64(c[0], c[1]), Xor64(c[2], c[3])));
    XorAssociates(state, c[0], c[1]);
    XorAssociates(Xor64(state, Xor64(c[0], c[1])), c[2], c[3]);
    XorAssociates(state, Xor64(c[0], c[1]), Xor64(c[2], c[3]));
  }

  /** A step determines each word of its chunk, the other words and the state fixed. */
  lemma TransitionDeterminesWord(state: u64, c: Quad, i: nat, x: u64, y: u64)
    requires i < 4 && Transition(state, c[i := x]) == Transition(state, c[i := y])
    ensures x == y
  {
    hide Mix64, Xor, Absorb, Transition;
    var cx: Quad, cy: Quad := c[i := x], c[i := y];
    TransitionAbsorbs(state, cx);
    TransitionAbsorbs(state, cy);
    var u, v := Xor64(Xor64(cx[0], cx[1]), Xor64(cx[2], cx[3])), Xor64(Xor64(cy[0], cy[1]), Xor64(cy[2], cy[3]));
    AbsorbOne(state, u);
    AbsorbOne(state, v);
    SameInput(state, u, v);
    OneOfFour(cx, cy, i);
  }

  lemma OneOfFour(c: Quad, d: Quad, i: nat)
    requires i < 4 && forall j :: 0 <= j < 4 && j != i ==> c[j] == d[j]
    requires Xor64(Xor64(c[0], c[1]), Xor64(c[2], c[3])) == Xor64(Xor64(d[0], d[1]), Xor64(d[2], d[3]))
    ensures c[i] == d[i]
  {
    hide Xor;
    var a, b := Xor64(c[0], c[1]), Xor64(d[0], d[1]);
    var e, f := Xor64(c[2], c[3]), Xor64(d[2], d[3]);
    if i < 2 {
      Xor64Injective(a, b, e);
      XorCommutes(c[0], c[1]);
      XorCommutes(d[0], d[1]);
      Xor64Injective(c[i], d[i], c[1 - i]);
    } else {
      XorCommutes(a, e);
      XorCommutes(b, f);
      Xor64Injective(e, f, a);
      XorCommutes(c[2], c[3]);
      XorCommutes(d[2], d[3]);
      Xor64Injective(c[i], d[i], c[5 - i]);
    }
  }

  // ---- a known answer of the mixer ----

  lemma NoBits()
    ensures Xor(0, 0) == 0
  {
  }

  // Four bits at a time.
  lemma XorBits(a: nat, b: nat, x: seq<nat>, y: seq<nat>)
    requires |x| == |y| == 4 && forall i :: 0 <= i < 4 ==> x[i] < 2 && y[i] < 2
    ensures Xor(16 * a + 8 * x[3] + 4 * x[2] + 2 * x[1] + x[0], 16 * b + 8 * y[3] + 4 * y[2] + 2 * y[1] + y[0])
      == 16 * Xor(a, b) + 8 * Flip(x[3], y[3]) + 4 * Flip(x[2], y[2]) + 2 * Flip(x[1], y[1]) + Flip(x[0], y[0])
  {
    hide Xor;
    XorBit(8 * a + 4 * x[3] + 2 * x[2] + x[1], 8 * b + 4 * y[3] + 2 * y[2] + y[1], x[0], y[0]);
    XorBit(4 * a + 2 * x[3] + x[2], 4 * b + 2 * y[3] + y[2], x[1], y[1]);
    XorBit(2 * a + x[3], 2 * b + y[3], x[2], y[2]);
    XorBit(a, b, x[3], y[3]);
  }

  function Flip(x: nat, y: nat): nat {
    if x == y then 0 else 1
  }

  function Bits(x: nat): (b: seq<nat>)
    requires x < 16
    ensures |b| == 4 && (forall i :: 0 <= i < 4 ==> b[i] < 2) && x == 8 * b[3] + 4 * b[2] + 2 * b[1] + b[0]
  {
    [x % 2, x / 2 % 2, x / 4 % 2, x / 8]
  }

  lemma XorNibble(a: nat, b: nat, x: nat, y: nat)
    requires x < 16 && y < 16
    ensures Xor(16 * a + x, 16 * b + y) == 16 * Xor(a, b) + Xor(x, y)
  {
    hide Xor, Bits;
    XorBits(a, b, Bits(x), Bits(y));
    XorBits(0, 0, Bits(x), Bits(y));
    NoBits();
  }

  lemma XorBit(a: nat, b: nat, x: nat, y: nat)
    requires x < 2 && y < 2
    ensures Xor(2 * a + x, 2 * b + y) == 2 * Xor(a, b) + Flip(x, y)
  {
    XorHalf(2 * a + x, 2 * b + y);
    hide Xor;
    assert (2 * a + x) / 2 == a && (2 * b + y) / 2 == b;
  }

  // The digits the known answer needs.
  lemma Digits0()
    ensures Xor(1, 14) == 15 && Xor(2, 2) == 0 && Xor(4, 8) == 12
    ensures Xor(5, 13) == 8 && Xor(6, 1) == 7 && Xor(9, 3) == 10
  {
  }

  lemma Digits1()
    ensures Xor(9, 12) == 5 && Xor(11, 10) == 1 && Xor(12, 11) == 7
    ensures Xor(13, 3) == 14 && Xor(13, 7) == 10 && Xor(13, 13) == 0
  {
  }

  lemma Digits2()
    ensures Xor(14, 0) == 14 && Xor(14, 11) == 5 && Xor(14, 14) == 0
    ensures Xor(15, 4) == 11
  {
  }

  lemma SecondShift()
    ensures Xor(0xBF58476D1CE4E5B9, 0x17EB08EDA3) == 0xBF58477AF7EC081A
  {
    hide Xor;
    Digits0();
    Digits1();
    Digits2();
    XorZero(0xBF5847);
    XorNibble(0xBF5847, 0x0, 6, 1);
    XorNibble(0xBF58476, 0x1, 13, 7);
    XorNibble(0xBF58476D, 0x17, 1, 14);
    XorNibble(0xBF58476D1, 0x17E, 12, 11);
    XorNibble(0xBF58476D1C, 0x17EB, 14, 0);
    XorNibble(0xBF58476D1CE, 0x17EB0, 4, 8);
    XorNibble(0xBF58476D1CE4, 0x17EB08, 14, 14);
    XorNibble(0xBF58476D1CE4E, 0x17EB08E, 5, 13);
    XorNibble(0xBF58476D1CE4E5, 0x17EB08ED, 11, 10);
    XorNibble(0xBF58476D1CE4E5B, 0x17EB08EDA, 9, 3);
  }

  lemma ThirdShift()
    ensures Xor(0x5692161DBD2F29DE, 0xAD242C3B) == 0x5692161D100B05E5
  {
    hide Xor;
    Digits0();
    Digits1();
    Digits2();
    XorZero(0x5692161D);
    XorNibble(0x5692161D, 0x0, 11, 10);
    XorNibble(0x5692161DB, 0xA, 13, 13);
    XorNibble(0x5692161DBD, 0xAD, 2, 2);
    XorNibble(0x5692161DBD2, 0xAD2, 15, 4);
    XorNibble(0x5692161DBD2F, 0xAD24, 2, 2);
    XorNibble(0x5692161DBD2F2, 0xAD242, 9, 12);
    XorNibble(0x5692161DBD2F29, 0xAD242C, 13, 3);
    XorNibble(0x5692161DBD2F29D, 0xAD242C3, 14, 11);
  }

  /** A known answer of the mixer: its shifts and multipliers are those of SplitMix64. */
  lemma MixOfOne()
    ensures Mix64(1) == 0x5692161D100B05E5
  {
    hide Xor, Pow;
    ShiftOf(1, 30, 0x4000_0000, 0);
    XorZero(1);
    assert Shifted(1, 30) == 1;
    ShiftOf(0xBF58476D1CE4E5B9, 27, 0x800_0000, 0x17EB08EDA3);
    SecondShift();
    ShiftOf(0x5692161DBD2F29DE, 31, 0x8000_0000, 0xAD242C3B);
    ThirdShift();
  }

  lemma ShiftOf(x: u64, s: nat, p: nat, q: nat)
    requires s == 27 || s == 30 || s == 31
    requires p == if s == 27 then 0x800_0000 else if s == 30 then 0x4000_0000 else 0x8000_0000
    requires q == x / p
    ensures Shifted(x, s) == Xor(x, q)
  {
    hide Xor;
    BigPowers();
  }

  lemma BigPowers()
    ensures Pow(2, 27) == 0x800_0000 && Pow(2, 30) == 0x4000_0000 && Pow(2, 31) == 0x8000_0000
  {
    WordPowers();
    assert Pow(2, 8) == 256;
    PowAdd(2, 8, 8);
    PowAdd(2, 8, 16);
    PowAdd(2, 3, 24);
    PowAdd(2, 6, 24);
    PowAdd(2, 7, 24);
    assert Pow(2, 3) == 8 && Pow(2, 6) == 64 && Pow(2, 7) == 128;
  }
}
