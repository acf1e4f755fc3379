/** Proof-of-Model primitives: the word mixer, the walk over the weight chunks, the
    seed and proof-of-work folds, and the Fiat-Shamir challenges. */
module Pom {
  import opened Digits
  import opened Words
  import opened Merkle

  /** Four little-endian words: a chunk, or a 32-byte hash read as words. */
  type Quad = w: seq<u64> | |w| == 4 witness [0, 0, 0, 0]

  const SEED_CONSTANT: u64 := 0x4B65727978531
  const POW_CONSTANTS: Quad := [0x9E3779B97F4A7C15, 0xC2B2AE3D27D4EB4F, 0x165667B19E3779F9, 0xD6E8FEB86659FD93]
  const H3_SALT: Quad := [0x7C99D381176D4EC4, 0xC2E28E3E28118C36, 0xD496CE1B129B76CA, 0x47CF0979FA580BCE]

  // ---- words and bytes ----

  function ToLe8(x: nat): (b: seq<u8>)
    ensures |b| == 8
  {
    ToDigits(256, x, 8)
  }

  function FromLe8(b: seq<u8>): u64
    requires |b| == 8
  {
    WordPowers();
    ValueBound(256, b);
    Value(256, b)
  }

  function ToWords(c: Digest): Quad {
    [FromLe8(c[0..8]), FromLe8(c[8..16]), FromLe8(c[16..24]), FromLe8(c[24..32])]
  }

  function ToBytes(w: Quad): Digest {
    ToLe8(w[0]) + ToLe8(w[1]) + ToLe8(w[2]) + ToLe8(w[3])
  }

  lemma Le8RoundTrip(x: u64)
    ensures FromLe8(ToLe8(x)) == x
  {
    WordPowers();
    ValueToDigits(256, x, 8);
  }

  lemma WordsOfBytes(w: Quad)
    ensures ToWords(ToBytes(w)) == w
  {
    var b := ToBytes(w);
    assert b[0..8] == ToLe8(w[0]) && b[8..16] == ToLe8(w[1]);
    assert b[16..24] == ToLe8(w[2]) && b[24..32] == ToLe8(w[3]);
    Le8RoundTrip(w[0]);
    Le8RoundTrip(w[1]);
    Le8RoundTrip(w[2]);
    Le8RoundTrip(w[3]);
  }

  lemma Le8OfBytes(b: seq<u8>)
    requires |b| == 8
    ensures ToLe8(FromLe8(b)) == b
  {
    ToDigitsValue(256, b);
  }

  lemma BytesOfWords(c: Digest)
    ensures ToBytes(ToWords(c)) == c
  {
    Le8OfBytes(c[0..8]);
    Le8OfBytes(c[8..16]);
    Le8OfBytes(c[16..24]);
    Le8OfBytes(c[24..32]);
    assert c == c[0..8] + c[8..16] + c[16..24] + c[24..32];
  }

  // ---- the mixer ----

  const M1: u64 := 0xbf58476d1ce4e5b9
  const N1: u64 := 0x96de1b173f119089
  const M2: u64 := 0x94d049bb133111eb
  const N2: u64 := 0x319642b2d24d8ec3

  function Mix64(x: u64): u64 {
    var a := Shifted(x, 30);
    var b := WrapMul(a, M1);
    var c := Shifted(b, 27);
    var d := WrapMul(c, M2);
    Shifted(d, 31)
  }

  function Shifted(x: u64, s: nat): u64 {
    WordPowers();
    DivShrinks(x, Pow(2, s));
    XorBound(x, x / Pow(2, s), 64);
    XorShift(x, s)
  }

  function Unshifted(x: u64, s: nat): u64
    requires s > 0
  {
    WordPowers();
    UnXorShiftBound(x, s, 64);
    UnXorShift(x, s)
  }

  /** The inverse of the mixer, built from the modular inverses of its two multipliers. */
  function Unmix64(y: u64): u64 {
    var d := Unshifted(y, 31);
    var c := WrapMul(d, N2);
    var b := Unshifted(c, 27);
    var a := WrapMul(b, N1);
    Unshifted(a, 30)
  }

  lemma ShiftedInverse(x: u64, s: nat)
    requires s > 0
    ensures Unshifted(Shifted(x, s), s) == x && Shifted(Unshifted(x, s), s) == x
  {
    UnXorShiftOfXorShift(x, s);
    XorShiftOfUnXorShift(x, s);
  }

  lemma Multiplier1(x: u64)
    ensures WrapMul(WrapMul(x, M1), N1) == x && WrapMul(WrapMul(x, N1), M1) == x
  {
    assert M1 * N1 == (M1 * N1 / WORD) * WORD + 1;
    WrapMulInverse(x, M1, N1, M1 * N1 / WORD);
    WrapMulInverse(x, N1, M1, M1 * N1 / WORD);
  }

  lemma Multiplier2(x: u64)
    ensures WrapMul(WrapMul(x, M2), N2) == x && WrapMul(WrapMul(x, N2), M2) == x
  {
    assert M2 * N2 == (M2 * N2 / WORD) * WORD + 1;
    WrapMulInverse(x, M2, N2, M2 * N2 / WORD);
    WrapMulInverse(x, N2, M2, M2 * N2 / WORD);
  }

  /** The mixer is a permutation of the 64-bit words. */
  lemma Mix64IsPermutation(x: u64)
    ensures Unmix64(Mix64(x)) == x
    ensures Mix64(Unmix64(x)) == x
  {
    var a := Shifted(x, 30);
    var b := WrapMul(a, M1);
    var c := Shifted(b, 27);
    var d := WrapMul(c, M2);
    ShiftedInverse(d, 31);
    Multiplier2(c);
    ShiftedInverse(b, 27);
    Multiplier1(a);
    ShiftedInverse(x, 30);

    var d' := Unshifted(x, 31);
    var c' := WrapMul(d', N2);
    var b' := Unshifted(c', 27);
    var a' := WrapMul(b', N1);
    ShiftedInverse(a', 30);
    Multiplier1(b');
    ShiftedInverse(c', 27);
    Multiplier2(d');
    ShiftedInverse(x, 31);
  }

  // ---- seed and proof-of-work folds ----

  /** The hash words both folds read: salted from the H3 activation on. */
  function EraWords(pph: Digest, h3: bool): Quad {
    var p := ToWords(pph);
    if h3 then XorQuad(p, H3_SALT) else p
  }

  function XorQuad(p: Quad, q: Quad): Quad {
    [Xor64(p[0], q[0]), Xor64(p[1], q[1]), Xor64(p[2], q[2]), Xor64(p[3], q[3])]
  }

  function SeedFold(p: Quad, time: u64, nonce: u64): u64 {
    var s0 := Mix64(Xor64(nonce, SEED_CONSTANT));
    var s1 := Mix64(Xor64(s0, time));
    var s2 := Mix64(Xor64(s1, p[0]));
    var s3 := Mix64(Xor64(s2, p[1]));
    var s4 := Mix64(Xor64(s3, p[2]));
    Mix64(Xor64(s4, p[3]))
  }

  function BlockSeed(pph: Digest, time: u64, nonce: u64, h3: bool): u64 {
    SeedFold(EraWords(pph, h3), time, nonce)
  }

  function PowFold(final: u64, p: Quad): Quad {
    var o0 := Mix64(Xor64(Xor64(final, p[0]), POW_CONSTANTS[0]));
    var o1 := Mix64(Xor64(Xor64(o0, p[1]), POW_CONSTANTS[1]));
    var o2 := Mix64(Xor64(Xor64(o1, p[2]), POW_CONSTANTS[2]));
    var o3 := Mix64(Xor64(Xor64(o2, p[3]), POW_CONSTANTS[3]));
    [o0, o1, o2, o3]
  }

  function PowValue(final: u64, pph: Digest, h3: bool): Digest {
    ToBytes(PowFold(final, EraWords(pph, h3)))
  }

  function Transition(state: u64, chunk: Quad): u64 {
    Mix64(Xor64(Xor64(Xor64(Xor64(state, chunk[0]), chunk[1]), chunk[2]), chunk[3]))
  }

  lemma MixXorInjective(a: u64, b: u64, c: u64)
    requires Mix64(Xor64(a, c)) == Mix64(Xor64(b, c))
    ensures a == b
  {
    Mix64IsPermutation(Xor64(a, c));
    Mix64IsPermutation(Xor64(b, c));
    Xor64Injective(a, b, c);
  }

  /** In either era, distinct nonces start distinct walks. */
  lemma BlockSeedInjective(pph: Digest, time: u64, n: u64, m: u64, h3: bool)
    requires BlockSeed(pph, time, n, h3) == BlockSeed(pph, time, m, h3)
    ensures n == m
  {
    var p := EraWords(pph, h3);
    var a0, b0 := Mix64(Xor64(n, SEED_CONSTANT)), Mix64(Xor64(m, SEED_CONSTANT));
    var a1, b1 := Mix64(Xor64(a0, time)), Mix64(Xor64(b0, time));
    var a2, b2 := Mix64(Xor64(a1, p[0])), Mix64(Xor64(b1, p[0]));
    var a3, b3 := Mix64(Xor64(a2, p[1])), Mix64(Xor64(b2, p[1]));
    var a4, b4 := Mix64(Xor64(a3, p[2])), Mix64(Xor64(b3, p[2]));
    MixXorInjective(a4, b4, p[3]);
    MixXorInjective(a3, b3, p[2]);
    MixXorInjective(a2, b2, p[1]);
    MixXorInjective(a1, b1, p[0]);
    MixXorInjective(a0, b0, time);
    MixXorInjective(n, m, SEED_CONSTANT);
  }

  /** A step on a fixed chunk loses nothing of the state. */
  lemma TransitionInjective(s: u64, t: u64, c: Quad)
    requires Transition(s, c) == Transition(t, c)
    ensures s == t
  {
    var s1, t1 := Xor64(s, c[0]), Xor64(t, c[0]);
    var s2, t2 := Xor64(s1, c[1]), Xor64(t1, c[1]);
    var s3, t3 := Xor64(s2, c[2]), Xor64(t2, c[2]);
    MixXorInjective(s3, t3, c[3]);
    Xor64Injective(s2, t2, c[2]);
    Xor64Injective(s1, t1, c[1]);
    Xor64Injective(s, t, c[0]);
  }

  /** In either era, the proof-of-work value determines the final state of the walk. */
  lemma PowValueInjective(s: u64, t: u64, pph: Digest, h3: bool)
    requires PowValue(s, pph, h3) == PowValue(t, pph, h3)
    ensures s == t
  {
    var p := EraWords(pph, h3);
    WordsOfBytes(PowFold(s, p));
    WordsOfBytes(PowFold(t, p));
    assert PowFold(s, p)[0] == PowFold(t, p)[0];
    MixXorInjective(Xor64(s, p[0]), Xor64(t, p[0]), POW_CONSTANTS[0]);
    Xor64Injective(s, t, p[0]);
  }

  /** The two eras give a final state different proof-of-work values. */
  lemma EraPowValuesDiffer(s: u64, pph: Digest)
    ensures PowValue(s, pph, true) != PowValue(s, pph, false)
  {
    if PowValue(s, pph, true) == PowValue(s, pph, false) {
      var p, q := EraWords(pph, true), EraWords(pph, false);
      WordsOfBytes(PowFold(s, p));
      WordsOfBytes(PowFold(s, q));
      assert PowFold(s, p)[0] == PowFold(s, q)[0];
      MixXorInjective(Xor64(s, p[0]), Xor64(s, q[0]), POW_CONSTANTS[0]);
      XorCommutes(s, p[0]);
      XorCommutes(s, q[0]);
      Xor64Injective(p[0], q[0], s);
      XorCommutes(q[0], H3_SALT[0]);
      XorZero(q[0]);
      XorCommutes(q[0], 0);
      Xor64Injective(H3_SALT[0], 0, q[0]);
    }
  }
}
