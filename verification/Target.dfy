/** 256-bit target arithmetic: shifts and compact targets on four words, long division of
    2^256 - 1, and the pool's compact share target. */
module Target {
  import opened Digits
  import opened Words
  import opened Merkle
  import opened Pom
  import opened Order
  import opened Wrappers

  // ---- shifting a word list left ----

  /** The digits of `Value(w) * p + carry`, word by word; `p` is the power of two below a word. */
  function MulWords(w: seq<u64>, p: nat, carry: nat): (r: seq<nat>)
    ensures |r| == |w| + 1
  {
    if w == [] then [carry] else [w[0] * p % WORD + carry] + MulWords(w[1..], p, w[0] * p / WORD)
  }

  lemma {:induction false} MulWordsValue(w: seq<u64>, p: nat, carry: nat)
    ensures Value(WORD, MulWords(w, p, carry)) == Value(WORD, w) * p + carry
  {
    var r := MulWords(w, p, carry);
    if w == [] {
      assert Value(WORD, r) == carry + WORD * Value(WORD, []);
    } else {
      var c := w[0] * p / WORD;
      MulWordsValue(w[1..], p, c);
      assert r[1..] == MulWords(w[1..], p, c);
      assert w[0] * p == WORD * c + w[0] * p % WORD;
      Distribute(w[0], Value(WORD, w[1..]), p);
    }
  }

  lemma Distribute(a: nat, v: nat, p: nat)
    ensures (a + WORD * v) * p == a * p + WORD * (v * p)
  {
  }

  /** No digit overflows a word: the low part is a multiple of `p`, the carry is below it. */
  lemma {:induction false} MulWordsInBase(w: seq<u64>, p: nat, q: nat, carry: nat)
    requires p > 0 && q > 0 && p * q == WORD && carry < p
    ensures InBase(WORD, MulWords(w, p, carry))
    decreases |w|
  {
    if w == [] {
      MulMono(1, q, p);
    } else {
      LowAndCarry(w[0], p, q);
      MulWordsInBase(w[1..], p, q, w[0] * p / WORD);
    }
  }

  lemma LowAndCarry(a: u64, p: nat, q: nat)
    requires p > 0 && q > 0 && p * q == WORD
    ensures a * p / WORD == a / q < p
    ensures a * p % WORD == p * (a % q) <= WORD - p
  {
    var h, l := a / q, a % q;
    assert a == q * h + l;
    assert a * p == h * (p * q) + p * l by {
      assert (q * h + l) * p == q * h * p + l * p;
      assert q * h * p == h * (p * q);
    }
    DigitBelow(p, 0, l, q);
    DivModUnique(a * p, WORD, h, p * l);
    MulMono(l + 1, q, p);
    DivBelow(a, p, q);
  }

  lemma DivBelow(a: nat, p: nat, q: nat)
    requires q > 0 && a < p * q
    ensures a / q < p
  {
    if a / q >= p {
      MulMono(p, a / q, q);
    }
  }

  /** The first digits of a number are the number modulo the power of the base. */
  lemma TakeIsMod(base: nat, d: seq<nat>, n: nat)
    requires base > 0 && n <= |d| && InBase(base, d)
    ensures Value(base, d[..n]) == Value(base, d) % Pow(base, n)
  {
    assert d == d[..n] + d[n..];
    ValueAppend(base, d[..n], d[n..]);
    ValueBound(base, d[..n]);
    assert Pow(base, n) * Value(base, d[n..]) == Value(base, d[n..]) * Pow(base, n);
    DivModUnique(Value(base, d), Pow(base, n), Value(base, d[n..]), Value(base, d[..n]));
  }

  /** All digits of the shifted number, lowest words zero. */
  function Shifted(w: Quad, wordShift: nat, p: nat): seq<nat> {
    seq(wordShift, _ => 0) + MulWords(w, p, 0)
  }

  lemma ShiftedValue(w: Quad, wordShift: nat, p: nat, q: nat)
    requires p > 0 && q > 0 && p * q == WORD
    ensures InBase(WORD, Shifted(w, wordShift, p)) && |Shifted(w, wordShift, p)| == wordShift + 5
    ensures Value(WORD, Shifted(w, wordShift, p)) == Value(WORD, w) * (Pow(WORD, wordShift) * p)
  {
    hide Value, Pow, MulWords;
    var z: seq<nat> := seq(wordShift, _ => 0);
    MulWordsInBase(w, p, q, 0);
    MulWordsValue(w, p, 0);
    ValueZeros(WORD, wordShift);
    ValueAppend(WORD, z, MulWords(w, p, 0));
    assert Pow(WORD, wordShift) * (Value(WORD, w) * p) == Value(WORD, w) * (Pow(WORD, wordShift) * p);
  }

  /** Shifting by `s` bits multiplies by 2^s. */
  lemma ShiftPower(s: nat)
    ensures Pow(WORD, s / 64) * Pow(2, s % 64) == Pow(2, s)
    ensures Pow(2, s % 64) * Pow(2, 64 - s % 64) == WORD
  {
    WordPowers();
    PowAdd(2, s % 64, 64 - s % 64);
    PowPow(s / 64);
    PowAdd(2, 64 * (s / 64), s % 64);
  }

  lemma {:induction false} PowPow(n: nat)
    ensures Pow(WORD, n) == Pow(2, 64 * n)
  {
    if n == 0 {
    } else {
      WordPowers();
      PowPow(n - 1);
      PowAdd(2, 64, 64 * (n - 1));
    }
  }

  lemma {:induction false} MulWordsAt(w: seq<u64>, p: nat, carry: nat, j: nat)
    requires j <= |w|
    ensures MulWords(w, p, carry)[j] ==
      (if j < |w| then w[j] * p % WORD else 0) + (if j > 0 then w[j - 1] * p / WORD else carry)
    decreases |w|
  {
    if w != [] && j > 0 {
      MulWordsAt(w[1..], p, w[0] * p / WORD, j - 1);
    }
  }

  // What word `j` of the result holds once the words below `i` have been shifted in.
  function Partial(w: Quad, p: nat, wordShift: nat, i: nat, j: nat): nat
    requires i <= 4
  {
    (if 0 <= j - wordShift < i then w[j - wordShift] * p % WORD else 0)
    + (if 0 <= j - wordShift - 1 < i then w[j - wordShift - 1] * p / WORD else 0)
  }

  lemma PartialIsShifted(w: Quad, p: nat, wordShift: nat, j: nat)
    requires j < 4
    ensures j < wordShift + 5 && Shifted(w, wordShift, p)[j] == Partial(w, p, wordShift, 4, j)
  {
    if j >= wordShift {
      MulWordsAt(w, p, 0, j - wordShift);
    }
  }

  /** Adding both contributions to a word never overflows it. */
  lemma PartialFits(w: Quad, p: nat, q: nat, wordShift: nat, i: nat, j: nat)
    requires i <= 4 && p > 0 && q > 0 && p * q == WORD
    ensures Partial(w, p, wordShift, i, j) < WORD
  {
    if 0 <= j - wordShift < i { LowAndCarry(w[j - wordShift], p, q); }
    if 0 <= j - wordShift - 1 < i { LowAndCarry(w[j - wordShift - 1], p, q); }
  }

  // The loop body: word `i` shifted into place, its overflow carried into the next word.
  method ShiftInWord(w: Quad, ret: Quad, i: nat, wordShift: nat, bitShift: nat) returns (r: Quad)
    requires i < 4 && bitShift < 64
    requires forall j :: 0 <= j < 4 ==> ret[j] == Partial(w, Pow(2, bitShift), wordShift, i, j)
    ensures forall j :: 0 <= j < 4 ==> r[j] == Partial(w, Pow(2, bitShift), wordShift, i + 1, j)
  {
    var p, q := Pow(2, bitShift), Pow(2, 64 - bitShift);
    assert p * q == WORD by {
      WordPowers();
      PowAdd(2, bitShift, 64 - bitShift);
    }
    LowAndCarry(w[i], p, q);
    hide Pow;
    r := ret;
    if i + wordShift < 4 {
      PartialFits(w, p, q, wordShift, i + 1, i + wordShift);
      r := r[i + wordShift := r[i + wordShift] + w[i] * p % WORD];
    }
    if bitShift > 0 && i + wordShift + 1 < 4 {
      r := r[i + wordShift + 1 := r[i + wordShift + 1] + w[i] / q];
    }
    if bitShift == 0 {
      NoCarry(w[i], p);
    }
  }

  lemma NoCarry(a: u64, p: nat)
    requires p == Pow(2, 0)
    ensures a * p / WORD == 0
  {
  }

  /** Shifting left by any number of bits multiplies by the power of two modulo 2^256; the
      word additions never overflow. */
  method Shl(w: Quad, shift: nat) returns (ret: Quad)
    ensures Value(WORD, ret) == Value(WORD, w) * Pow(2, shift) % Pow(WORD, 4)
  {
    var wordShift, bitShift := shift / 64, shift % 64;
    ret := [0, 0, 0, 0];
    for i := 0 to 4
      invariant forall j :: 0 <= j < 4 ==> ret[j] == Partial(w, Pow(2, bitShift), wordShift, i, j)
    {
      ret := ShiftInWord(w, ret, i, wordShift, bitShift);
    }
    ShiftedIsProduct(w, shift, ret);
  }

  lemma ShiftedIsProduct(w: Quad, shift: nat, ret: Quad)
    requires forall j :: 0 <= j < 4 ==> ret[j] == Partial(w, Pow(2, shift % 64), shift / 64, 4, j)
    ensures Value(WORD, ret) == Value(WORD, w) * Pow(2, shift) % Pow(WORD, 4)
  {
    hide Partial, Pow, Shifted;
    var ws, p := shift / 64, Pow(2, shift % 64);
    var all := Shifted(w, ws, p);
    ShiftPower(shift);
    ShiftedValue(w, ws, p, Pow(2, 64 - shift % 64));
    forall j | 0 <= j < 4 ensures ret[j] == all[j] {
      PartialIsShifted(w, p, ws, j);
    }
    assert all[..4] == ret;
    TakeIsMod(WORD, all, 4);
  }

  // ---- compact targets ----

  function Mantissa(bits: u32): nat {
    var e := bits / 0x100_0000;
    if e <= 3 then bits % 0x100_0000 / Pow(256, 3 - e) else bits % 0x100_0000
  }

  /** What a compact target denotes: mantissa times 256^(e - 3), zero for a "negative" mantissa. */
  function CompactNumber(bits: u32): nat {
    var e := bits / 0x100_0000;
    if Mantissa(bits) > 0x7F_FFFF then 0
    else if e <= 3 then Mantissa(bits)
    else Mantissa(bits) * Pow(256, e - 3) % Pow(WORD, 4)
  }

  lemma {:induction false} BytePower(n: nat)
    ensures Pow(2, 8 * n) == Pow(256, n)
  {
    if n == 0 {
    } else {
      BytePower(n - 1);
      assert Pow(2, 8) == 256;
      PowAdd(2, 8, 8 * (n - 1));
    }
  }

  method FromCompact(bits: u32) returns (r: Quad)
    ensures Value(WORD, r) == CompactNumber(bits)
  {
    var unshifted := bits / 0x100_0000;
    var mant, expt := 0, 0;
    if unshifted <= 3 {
      BytePower(3 - unshifted);
      mant := bits % 0x100_0000 / Pow(2, 8 * (3 - unshifted));
    } else {
      mant, expt := bits % 0x100_0000, 8 * (unshifted - 3);
    }
    SmallQuad(0);
    if mant > 0x7F_FFFF { return [0, 0, 0, 0]; }
    SmallQuad(mant);
    r := Shl([mant, 0, 0, 0], expt);
    if unshifted > 3 {
      BytePower(unshifted - 3);
    } else {
      BelowModulus(mant);
    }
  }

  lemma SmallQuad(m: u64)
    ensures Value(WORD, [m, 0, 0, 0]) == m
  {
    QuadValue([m, 0, 0, 0]);
  }

  lemma BelowModulus(m: u64)
    ensures m * Pow(2, 0) % Pow(WORD, 4) == m
  {
    assert Pow(WORD, 4) == WORD * (WORD * (WORD * (WORD * 1)));
  }

  // The number of a byte string that has `k` zero bytes below and any number above.
  lemma ShiftedBytes(k: nat, b: seq<u8>, n: nat)
    ensures Value(256, seq(k, _ => 0) + (b + seq(n, _ => 0))) == Value(256, b) * Pow(256, k)
  {
    hide Pow, Value;
    var low: seq<nat>, high: seq<nat> := seq(k, _ => 0), seq(n, _ => 0);
    ValueAppend(256, low, b + high);
    ValueAppend(256, b, high);
    ValueZeros(256, k);
    ValueZeros(256, n);
  }

  lemma ThreeBytes(b0: u8, b1: u8, b2: u8)
    ensures Value(256, [b0, b1, b2]) == b0 + 0x100 * b1 + 0x1_0000 * b2
    ensures Value(256, [b1, b2]) == b1 + 0x100 * b2 && Value(256, [b2]) == b2
  {
    var three: seq<u8>, two: seq<u8>, one: seq<u8> := [b0, b1, b2], [b1, b2], [b2];
    assert three[1..] == two && two[1..] == one && one[1..] == [];
    assert Value(256, one) == b2 + 256 * Value(256, one[1..]) && Value(256, []) == 0;
    assert Value(256, two) == b1 + 256 * Value(256, two[1..]);
    assert Value(256, three) == b0 + 256 * Value(256, three[1..]);
  }

  /** The three mantissa bytes lie at positions e - 3, e - 2 and e - 1 of the 32 bytes, and what
      falls outside them is lost; from e = 3 on a top bit in the mantissa makes the number zero. */
  lemma CompactPositions(bits: u32, e: u8, b2: u8, b1: u8, b0: u8)
    requires bits == 0x100_0000 * e + 0x1_0000 * b2 + 0x100 * b1 + b0
    ensures e >= 3 && b2 >= 0x80 ==> CompactNumber(bits) == 0
    ensures e >= 3 && b2 < 0x80 ==>
      CompactNumber(bits) == Value(256, (seq(e - 3, _ => 0) + ([b0, b1, b2] + seq(32, _ => 0)))[..32])
    ensures e < 3 ==> CompactNumber(bits) == Value(256, if e == 2 then [b1, b2] else if e == 1 then [b2] else [])
  {
    hide Value;
    assert bits / 0x100_0000 == e && bits % 0x100_0000 == 0x1_0000 * b2 + 0x100 * b1 + b0;
    ThreeBytes(b0, b1, b2);
    if e < 3 {
      LowMantissa(e, b2, b1, b0);
    } else if b2 < 0x80 {
      WholeMantissa(bits, e, Value(256, [b0, b1, b2]));
      CutMantissa(e - 3, [b0, b1, b2]);
    } else {
      assert Pow(256, 0) == 1;
    }
  }

  lemma LowMantissa(e: nat, b2: u8, b1: u8, b0: u8)
    requires e < 3
    ensures (0x1_0000 * b2 + 0x100 * b1 + b0) / Pow(256, 3 - e) ==
      Value(256, if e == 2 then [b1, b2] else if e == 1 then [b2] else [])
  {
    ThreeBytes(b0, b1, b2);
    assert Pow(256, 1) == 0x100 && Pow(256, 2) == 0x1_0000 && Pow(256, 3) == 0x100_0000;
    assert Value(256, []) == 0;
  }

  lemma WholeMantissa(bits: u32, e: nat, m: nat)
    requires bits == 0x100_0000 * e + m && 3 <= e && m <= 0x7F_FFFF
    ensures CompactNumber(bits) == m * Pow(256, e - 3) % Pow(WORD, 4)
  {
    assert Pow(256, 0) == 1;
    assert bits / 0x100_0000 == e && bits % 0x100_0000 == m;
    hide Pow;
    if e == 3 {
      BelowModulus(m);
      assert Pow(256, 0) == Pow(2, 0) by { BytePower(0); }
    }
  }

  lemma CutMantissa(k: nat, b: seq<u8>)
    ensures Value(256, (seq(k, _ => 0) + (b + seq(32, _ => 0)))[..32]) == Value(256, b) * Pow(256, k) % Pow(WORD, 4)
  {
    hide Pow, Value;
    ShiftedBytes(k, b, 32);
    TakeIsMod(256, seq(k, _ => 0) + (b + seq(32, _ => 0)), 32);
    PowPow(4);
    BytePower(32);
  }

  // ---- targets from a difficulty ----

  /** The number of a most-significant-first byte string. */
  function BigEndian(b: seq<u8>): nat {
    if b == [] then 0 else 256 * BigEndian(b[..|b| - 1]) + b[|b| - 1]
  }

  lemma {:induction false} BigEndianReversed(be: seq<u8>, le: seq<u8>)
    requires |be| == |le| && forall i :: 0 <= i < |le| ==> le[i] == be[|be| - 1 - i]
    ensures BigEndian(be) == Value(256, le)
    decreases |be|
  {
    if be == [] {
    } else {
      BigEndianReversed(be[..|be| - 1], le[1..]);
    }
  }

  lemma DivideStep(rem: nat, d: nat)
    requires d > 0 && rem < d
    ensures var x := rem * 256 + 255;
      x / d < 256 && x == d * (x / d) + x % d && x % d < d
  {
    DivBelow(rem * 256 + 255, 256, d);
  }

  lemma Accumulate(d: nat, v: nat, q: nat)
    ensures d * (256 * v + q) == 256 * (d * v) + d * q
  {
  }

  /** The floor of (2^256 - 1) / difficulty; a zero difficulty counts as one. */
  function MaxTarget(difficulty: nat): nat {
    (Pow(256, 32) - 1) / (if difficulty == 0 then 1 else difficulty)
  }

  // The quotient bytes so far and the remainder make up a number of that many 0xFF bytes.
  ghost predicate Divided(d: nat, be: seq<u8>, rem: nat) {
    rem < d && d * BigEndian(be) + rem == Pow(256, |be|) - 1
  }

  lemma DividedMore(d: nat, be: seq<u8>, rem: nat)
    requires d > 0 && Divided(d, be, rem)
    ensures (rem * 256 + 255) / d < 256 && Divided(d, be + [(rem * 256 + 255) / d], (rem * 256 + 255) % d)
  {
    hide Pow;
    var x, v := rem * 256 + 255, BigEndian(be);
    DivideStep(rem, d);
    Accumulate(d, v, x / d);
    PowStep256(|be|);
    assert (be + [x / d])[..|be|] == be && BigEndian(be + [x / d]) == 256 * v + x / d;
  }

  lemma DividedFully(d: nat, be: seq<u8>, rem: nat, out: Digest)
    requires d > 0 && |be| == 32 && Divided(d, be, rem) && forall i :: 0 <= i < 32 ==> out[i] == be[31 - i]
    ensures d > 0 && Num(out) == MaxTarget(d)
  {
    hide Pow;
    BigEndianReversed(be, out);
    DivModUnique(Pow(256, 32) - 1, d, Num(out), rem);
  }

  lemma DividedStart(d: nat)
    requires d > 0
    ensures Divided(d, [], 0)
  {
  }

  // Divides thirty-two 0xFF bytes, from the most significant.
  method DivideBytes(difficulty: u64) returns (be: seq<u8>, rem: nat)
    requires difficulty > 0
    ensures |be| == 32 && Divided(difficulty, be, rem)
  {
    hide *;
    be, rem := [], 0;
    DividedStart(difficulty);
    for i := 0 to 32
      invariant |be| == i && Divided(difficulty, be, rem)
    {
      DividedMore(difficulty, be, rem);
      var x := rem * 256 + 255;
      be := be + [x / difficulty];
      rem := x % difficulty;
    }
  }

  lemma EasiestTarget(d: nat)
    requires d <= 1
    ensures Value(256, seq(32, _ => 0xFF)) == MaxTarget(d)
  {
    hide Value, Pow;
    AllOnes(32);
  }

  /** Long division, byte by byte: the quotient bytes fit their type and the result is the
      floor of (2^256 - 1) / difficulty. */
  method TargetFromDifficulty(difficulty: u64) returns (out: Digest)
    ensures Num(out) == MaxTarget(difficulty)
  {
    hide Divided, Pow, MaxTarget;
    if difficulty <= 1 {
      EasiestTarget(difficulty);
      return seq(32, _ => 0xFF);
    }
    var be, rem := DivideBytes(difficulty);
    out := seq(32, i requires 0 <= i < 32 => be[31 - i]);
    DividedFully(difficulty, be, rem, out);
  }

  lemma PowStep256(i: nat)
    ensures Pow(256, i + 1) == 256 * Pow(256, i)
  {
  }

  lemma {:induction false} AllOnes(n: nat)
    ensures Value(256, seq(n, _ => 0xFF)) == Pow(256, n) - 1
  {
    if n == 0 {
    } else {
      var s: seq<nat> := seq(n, _ => 0xFF);
      assert s[1..] == seq(n - 1, _ => 0xFF);
      AllOnes(n - 1);
    }
  }

  /** A higher difficulty never has a larger target. */
  lemma TargetsAreAntitone(d: nat, e: nat)
    requires d <= e
    ensures MaxTarget(e) <= MaxTarget(d)
  {
    QuotientAntitone(Pow(256, 32) - 1, if d == 0 then 1 else d, if e == 0 then 1 else e);
  }

  lemma QuotientAntitone(m: nat, d: nat, e: nat)
    requires 0 < d <= e
    ensures m / e <= m / d
  {
    var q := m / e;
    MulMono(d, e, q);
    assert m == e * q + m % e;
    assert d * q <= m by { assert d * q == q * d && e * q == q * e; }
    assert m == d * (m / d) + m % d;
    if q > m / d {
      MulMono(m / d + 1, q, d);
    }
  }

  // ---- pool share targets ----

  /** The 256-bit target of a compact little-endian share target. */
  function ParseTarget(bytes: seq<u8>): Result<Digest> {
    if bytes == [] || |bytes| > 8 then Err("unsupported target length")
    else
      var t: Digest := seq(24, _ => 0) + ToLe8(ShareTarget(bytes));
      Ok(t)
  }

  /** Four bytes are the high half of a 64-bit threshold; any other length is the threshold. */
  function ShareTarget(bytes: seq<u8>): nat {
    if |bytes| == 4 then Value(256, bytes) * 0x1_0000_0000 % WORD else Value(256, bytes)
  }

  function PoolTarget(bytes: seq<u8>): Result<u64> {
    match ParseTarget(bytes)
    case Err(e) => Err(e)
    case Ok(t) => Ok(FromLe8(t[24..32]))
  }

  /** The engine's 256-bit test on a share target is the pool's 64-bit test on the top of the hash. */
  lemma ShareTestsAgree(hash: Digest, bytes: seq<u8>)
    requires ParseTarget(bytes).Ok?
    ensures PoolTarget(bytes).Ok?
    ensures Num(hash) < Num(ParseTarget(bytes).value) <==> FromLe8(hash[24..32]) < PoolTarget(bytes).value
  {
    hide FromLe8, ShareTarget, Pow, Value, ToLe8;
    var t := ParseTarget(bytes).value;
    TopWord(hash);
    TopWord(t);
    assert t[..24] == seq(24, _ => 0);
    ValueZeros(256, 24);
    DigitOrder(Value(256, hash[..24]), FromLe8(hash[24..32]), FromLe8(t[24..32]), Pow(256, 24));
  }

  lemma TopWord(b: Digest)
    ensures Num(b) == Value(256, b[..24]) + Pow(256, 24) * FromLe8(b[24..32])
    ensures Value(256, b[..24]) < Pow(256, 24)
  {
    assert b == b[..24] + b[24..32];
    ValueAppend(256, b[..24], b[24..32]);
    ValueBound(256, b[..24]);
  }

  lemma DigitOrder(low: nat, a: nat, b: nat, p: nat)
    requires low < p
    ensures low + p * a < p * b <==> a < b
  {
    if a < b {
      DigitBelow(p, low, a, b);
    } else {
      MulMono(b, a, p);
    }
  }

  /** The 64-bit threshold: what four bytes or up to eight bytes denote, nothing lost. */
  lemma ShareTargetIsExact(bytes: seq<u8>)
    requires ParseTarget(bytes).Ok?
    ensures PoolTarget(bytes) == Ok(Value(256, bytes) * if |bytes| == 4 then 0x1_0000_0000 else 1)
  {
    hide Pow, Value, ToLe8, FromLe8;
    var t := ParseTarget(bytes).value;
    assert t[24..32] == ToLe8(ShareTarget(bytes));
    ShareFits(bytes);
    Le8RoundTrip(ShareTarget(bytes));
  }

  lemma ShareFits(bytes: seq<u8>)
    requires 0 < |bytes| <= 8
    ensures ShareTarget(bytes) == Value(256, bytes) * (if |bytes| == 4 then 0x1_0000_0000 else 1) < WORD
  {
    ValueBound(256, bytes);
    if |bytes| == 4 {
      assert Pow(256, 4) == 0x1_0000_0000;
    } else {
      WordPowers();
      PowMonotone(|bytes|, 8);
    }
  }

  lemma {:induction false} PowMonotone(m: nat, n: nat)
    requires m <= n
    ensures Pow(256, m) <= Pow(256, n)
    decreases n
  {
    if m < n {
      PowMonotone(m, n - 1);
    }
  }
}
