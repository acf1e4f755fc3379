/** The fixed-point network: generated weights, three integer layers, and the ranges that
    keep every intermediate value far inside its machine type. */
module Mlp {
  import opened Digits
  import opened Words
  import opened Merkle

  const MODEL_SEED: u64 := 0x4B65_7279_784F_5000
  const LAYER_FACTOR: u64 := 0xDEAD_BEEF_CAFE_1337
  const LCG_A: u64 := 6_364_136_223_846_793_005
  const LCG_B: u64 := 1_442_695_040_888_963_407

  const N_IN: nat := 32
  const N_H1: nat := 256
  const N_H2: nat := 128
  const N_OUT: nat := 32
  const HE_L1: int := 256
  const HE_L2: int := 90
  const HE_L3: int := 128

  // ---- weights ----

  function Advance(state: u64): u64 {
    (state * LCG_A + LCG_B) % WORD
  }

  /** The upper half of the state as a signed 32-bit number. */
  function Raw(state: u64): int {
    var u := state / 0x1_0000_0000;
    if u < 0x8000_0000 then u else u - 0x1_0000_0000
  }

  /** The weight of an already advanced state; the shift rounds towards minus infinity. */
  function Weight(state: u64, he: int): int {
    Raw(state) * he / 0x8000_0000
  }

  /** Every weight lies in [-he, he - 1]. */
  lemma WeightRange(state: u64, he: int)
    requires he > 0
    ensures -he <= Weight(state, he) <= he - 1
  {
    var r := Raw(state);
    assert -0x8000_0000 <= r < 0x8000_0000;
    SignedMono(-0x8000_0000, r, he);
    SignedMono(r, 0x7FFF_FFFF, he);
  }

  lemma SignedMono(a: int, b: int, d: int)
    requires a <= b && d >= 0
    ensures a * d <= b * d
  {
  }

  /** The lower end is met exactly when the scaled draw rounds down to it. */
  lemma LowestWeightExactly(state: u64, he: int)
    requires he > 0
    ensures Weight(state, he) == -he <==> (Raw(state) + 0x8000_0000) * he < 0x8000_0000
  {
    var r := Raw(state);
    assert (r + 0x8000_0000) * he == r * he + 0x8000_0000 * he;
    SignedMono(-0x8000_0000, r, he);
  }

  function WeightsFrom(state: u64, n: nat, he: int): (w: seq<int>)
    ensures |w| == n
    decreases n, state
  {
    if n == 0 then [] else [Weight(Advance(state), he)] + WeightsFrom(Advance(state), n - 1, he)
  }

  function LayerSeed(layer: nat): u64 {
    (MODEL_SEED + layer * LAYER_FACTOR % WORD) % WORD
  }

  predicate Within(xs: seq<int>, lo: int, hi: int) {
    forall i :: 0 <= i < |xs| ==> lo <= xs[i] <= hi
  }

  lemma {:induction false} WeightsRange(state: u64, n: nat, he: int)
    requires he > 0
    ensures Within(WeightsFrom(state, n, he), -he, he - 1)
    decreases n
  {
    if n == 0 {
    } else {
      WeightRange(Advance(state), he);
      WeightsRange(Advance(state), n - 1, he);
    }
  }

  lemma WeightsStep(w: seq<int>, s: u64, n: nat, he: int)
    requires n > 0
    ensures w + [Weight(Advance(s), he)] + WeightsFrom(Advance(s), n - 1, he) == w + WeightsFrom(s, n, he)
  {
    hide Advance, Weight;
    assert WeightsFrom(s, n, he) == [Weight(Advance(s), he)] + WeightsFrom(Advance(s), n - 1, he);
  }

  /** The generator loop. */
  method Generate(seed: u64, n: nat, he: int) returns (w: seq<int>)
    requires he > 0
    ensures w == WeightsFrom(seed, n, he) && Within(w, -he, he - 1)
  {
    hide *;
    var s := seed;
    w := [];
    for i := 0 to n
      invariant w + WeightsFrom(s, n - i, he) == WeightsFrom(seed, n, he)
    {
      WeightsStep(w, s, n - i, he);
      s := Advance(s);
      w := w + [Weight(s, he)];
    }
    WeightsRange(seed, n, he);
    assert w == WeightsFrom(seed, n, he);
  }

  method MakeWeights(rows: nat, cols: nat, layer: nat, he: int) returns (w: seq<int>)
    requires he > 0
    ensures w == WeightsFrom(LayerSeed(layer), rows * cols, he) && Within(w, -he, he - 1)
  {
    w := Generate(LayerSeed(layer), rows * cols, he);
  }

  // ---- the lower end is attained ----

  /** The generator's state after `n` draws. */
  function Nth(state: u64, n: nat): u64
    decreases n, state
  {
    if n == 0 then state else Nth(Advance(state), n - 1)
  }

  lemma {:induction false} WeightIsDraw(state: u64, n: nat, he: int, i: nat)
    requires i < n
    ensures WeightsFrom(state, n, he)[i] == Weight(Nth(state, i + 1), he)
    decreases n
  {
    hide Advance, Weight;
    assert WeightsFrom(state, n, he) == [Weight(Advance(state), he)] + WeightsFrom(Advance(state), n - 1, he);
    if i == 0 {
      assert Nth(state, 1) == Nth(Advance(state), 0);
    } else {
      WeightIsDraw(Advance(state), n - 1, he, i - 1);
    }
  }

  lemma {:induction false} NthAdd(state: u64, m: nat, n: nat)
    ensures Nth(state, m + n) == Nth(Nth(state, m), n)
    decreases m
  {
    hide Advance;
    if m == 0 {
    } else {
      NthAdd(Advance(state), m - 1, n);
    }
  }

  /** Multiplier and increment of `n` draws at once, by repeated doubling. */
  function Jump(n: nat): (u64, u64) {
    if n == 0 then (1, 0)
    else if n % 2 == 0 then
      var (a, b) := Jump(n / 2);
      (a * a % WORD, (a * b + b) % WORD)
    else
      var (a, b) := Jump(n - 1);
      (LCG_A * a % WORD, (LCG_A * b + LCG_B) % WORD)
  }

  // Drawing by (a, b) and then by (c, d).
  lemma Composed(s: int, a: int, b: int, c: int, d: int)
    ensures (c * ((a * s + b) % WORD) + d) % WORD == (c * a % WORD * s + (c * b + d) % WORD) % WORD
  {
    var x, y, z := (a * s + b) / WORD, c * a / WORD, (c * b + d) / WORD;
    var u, v := (a * s + b) % WORD, c * a % WORD;
    assert a * s + b == WORD * x + u && c * a == WORD * y + v;
    var w := (c * b + d) % WORD;
    assert c * b + d == WORD * z + w;
    Recombined(s, a, b, c, d, x, y, u, v);
    SameRemainder(c * u + d, v * s + w, y * s + z - c * x);
  }

  lemma Recombined(s: int, a: int, b: int, c: int, d: int, x: int, y: int, u: int, v: int)
    requires a * s + b == WORD * x + u && c * a == WORD * y + v
    ensures c * u + d == v * s + (c * b + d) + WORD * (y * s - c * x)
  {
    assert c * (a * s + b) == c * (WORD * x + u);
    assert c * (a * s + b) == c * a * s + c * b;
    assert c * a * s == (WORD * y + v) * s;
    assert (WORD * y + v) * s == WORD * (y * s) + v * s;
    assert c * (WORD * x + u) == WORD * (c * x) + c * u;
  }

  lemma SameRemainder(p: int, q: int, k: int)
    requires p == q + WORD * k
    ensures p % WORD == q % WORD
  {
  }

  // Two jumps, one after the other.
  lemma JumpTwice(state: u64, m: nat, n: nat, a: int, b: int, c: int, d: int)
    requires Nth(state, m) == (a * state + b) % WORD
    requires Nth(Nth(state, m), n) == (c * Nth(state, m) + d) % WORD
    ensures Nth(state, m + n) == (c * a % WORD * state + (c * b + d) % WORD) % WORD
  {
    hide Nth, WORD;
    NthAdd(state, m, n);
    Composed(state, a, b, c, d);
  }

  lemma OneDraw(state: u64)
    ensures Nth(state, 1) == (LCG_A * state + LCG_B) % WORD && Nth(state, 0) == (1 * state + 0) % WORD
  {
    assert Nth(state, 1) == Nth(Advance(state), 0);
  }

  /** Jumping is drawing that often. */
  lemma {:induction false} JumpIsNth(state: u64, n: nat)
    ensures Nth(state, n) == (Jump(n).0 * state + Jump(n).1) % WORD
    decreases n
  {
    hide WORD, LCG_A, LCG_B, Nth, Jump;
    if n == 0 {
      OneDraw(state);
      NoJump();
    } else if n % 2 == 0 {
      var m := n / 2;
      var (a, b) := Jump(m);
      JumpIsNth(state, m);
      JumpIsNth(Nth(state, m), m);
      JumpTwice(state, m, m, a, b, a, b);
      EvenJump(n);
    } else {
      var (a, b) := Jump(n - 1);
      JumpIsNth(state, n - 1);
      OneDraw(Nth(state, n - 1));
      JumpTwice(state, n - 1, 1, a, b, LCG_A, LCG_B);
      OddJump(n);
    }
  }

  lemma NoJump()
    ensures Jump(0) == (1, 0)
  {
  }

  lemma EvenJump(n: nat)
    requires n > 0 && n % 2 == 0
    ensures var (a, b) := Jump(n / 2); Jump(n) == (a * a % WORD, (a * b + b) % WORD)
  {
  }

  lemma OddJump(n: nat)
    requires n % 2 == 1
    ensures var (a, b) := Jump(n - 1); Jump(n) == (LCG_A * a % WORD, (LCG_A * b + LCG_B) % WORD)
  {
  }

  lemma FirstJump()
    ensures Jump(1) == (LCG_A, LCG_B)
  {
    NoJump();
    OddJump(1);
  }

  lemma Doubled(n: nat, a: int, b: int)
    requires n > 0 && a == Jump(n).0 * Jump(n).0 % WORD && b == (Jump(n).0 * Jump(n).1 + Jump(n).1) % WORD
    ensures Jump(2 * n) == (a, b)
  {
    hide Jump, WORD;
    DoubleJump(n);
  }

  lemma DoubleJump(n: nat)
    requires n > 0
    ensures var (a, b) := Jump(n); Jump(2 * n) == (a * a % WORD, (a * b + b) % WORD)
  {
    hide Jump, WORD;
    assert 2 * n % 2 == 0 && 2 * n / 2 == n;
    EvenJump(2 * n);
  }

  lemma OneMore(n: nat, a: int, b: int)
    requires n % 2 == 0 && a == LCG_A * Jump(n).0 % WORD && b == (LCG_A * Jump(n).1 + LCG_B) % WORD
    ensures Jump(n + 1) == (a, b)
  {
    hide Jump, LCG_A, LCG_B, WORD;
    NextJump(n);
  }

  lemma NextJump(n: nat)
    requires n % 2 == 0
    ensures var (a, b) := Jump(n); Jump(n + 1) == (LCG_A * a % WORD, (LCG_A * b + LCG_B) % WORD)
  {
    hide Jump, LCG_A, LCG_B, WORD;
    OddJump(n + 1);
  }

  lemma LayerSeeds()
    ensures LayerSeed(0) == 0x4B657279784F5000
    ensures LayerSeed(1) == 0x2A133169434D6337
    ensures LayerSeed(2) == 0x8C0F0590E4B766E
  {
  }

  lemma Layer0Draw()
    ensures Nth(LayerSeed(0), 726) == 0x805E12619B95B596
  {
    hide Jump, Nth, LayerSeed;
    FirstJump();
    Doubled(1, 0x685F98A2018FADE9, 0x1A08EE1184BA6D32);
    Doubled(2, 0xFB4D3AE39272BE11, 0x66B61AE97F2099B4);
    OneMore(4, 0x696D29DA565AD7FD, 0x62354CDA6226D1F3);
    Doubled(5, 0xC07A0E3E901EF009, 0x7252E9376E45641A);
    OneMore(10, 0x1CCA61580FC1A895, 0xA220229EC164FFE1);
    Doubled(11, 0x3B0114B115ADE6B9, 0xBFC7666AB0BA95D6);
    Doubled(22, 0x3BCDF1CDFFFAF1B1, 0x200951A3D9CD217C);
    OneMore(44, 0x1187601FB5084B1D, 0x8364DB7A513EE81B);
    Doubled(45, 0xA2F2AB81C9DA0149, 0xE847CD7A4B371C2A);
    Doubled(90, 0x1C98E13CD255A6D1, 0x560A70D9EACE4E24);
    OneMore(180, 0x41A324269A7501BD, 0xC48462E3C16319A3);
    Doubled(181, 0x5118A7ADFAC50589, 0xED2B02B3B025A9FA);
    OneMore(362, 0x717BC862B71DF015, 0x9A87F6CBC3DB6841);
    Doubled(363, 0xBB3670D24BE961B9, 0x88D0F563CCF4E596);
    JumpIsNth(LayerSeed(0), 726);
    LayerSeeds();
  }

  lemma Layer1Draw()
    ensures Nth(LayerSeed(1), 204) == 0x809C6C6DEB958823
  {
    hide Jump, Nth, LayerSeed;
    FirstJump();
    Doubled(1, 0x685F98A2018FADE9, 0x1A08EE1184BA6D32);
    OneMore(2, 0xB046976F22528F5, 0x9AF678222E728119);
    Doubled(3, 0xF08D02B0115F7A79, 0x8F947F36D0D0F606);
    Doubled(6, 0x2BAA1C4032658D31, 0x5D7D4DA4CB0E1ADC);
    Doubled(12, 0x6EA923EFDA890361, 0x307892D5FE586AF8);
    OneMore(24, 0xE70939602637B70D, 0x7C15EB1A6C5B56E7);
    Doubled(25, 0xD3EBAA38067996A9, 0x5ABE9B0D2DBEE1A2);
    OneMore(50, 0xA8D82443517A52B5, 0xCC90A3111F2E88C9);
    Doubled(51, 0x48A8D587793C73F9, 0xEA181038DBAFA0E6);
    Doubled(102, 0xF6F8DE85F341A831, 0x596019B6DAB2729C);
    JumpIsNth(LayerSeed(1), 204);
    LayerSeeds();
  }

  lemma Layer2Draw()
    ensures Nth(LayerSeed(2), 439) == 0x809A9D3DE78FAEB3
  {
    hide Jump, Nth, LayerSeed;
    FirstJump();
    Doubled(1, 0x685F98A2018FADE9, 0x1A08EE1184BA6D32);
    OneMore(2, 0xB046976F22528F5, 0x9AF678222E728119);
    Doubled(3, 0xF08D02B0115F7A79, 0x8F947F36D0D0F606);
    Doubled(6, 0x2BAA1C4032658D31, 0x5D7D4DA4CB0E1ADC);
    OneMore(12, 0xBC2BD0EBF66A209D, 0xC73AA0D9A415DFB);
    Doubled(13, 0x55C522EAC22BA049, 0x74078C767C0560EA);
    OneMore(26, 0x69CB5166BCAC63D5, 0x2D2ACCE24F9FA071);
    Doubled(27, 0x967FE7325266F39, 0xF78231121267D176);
    Doubled(54, 0x2C7F2B21AF3E7AB1, 0x1F0DDCC454DB9EBC);
    OneMore(108, 0x84F1BC2C1DE601D, 0x48D35E1A092DAC5B);
    Doubled(109, 0x7206D80A9061C349, 0xD56D650045E652AA);
    OneMore(218, 0xC2CE2E31368D8AD5, 0x2354FEB318D85F31);
    Doubled(219, 0xE7FB65E15EC5539, 0xC82ECEBD2C2CFCF6);
    OneMore(438, 0xA5FEF6499EFF4205, 0x38E0AC304FFC028D);
    JumpIsNth(LayerSeed(2), 439);
    LayerSeeds();
  }

  /** The documented range of the weights is open at both ends, but every one of the three layers
      has a weight at the lower end. */
  lemma LowestWeightOccurs()
    ensures WeightsFrom(LayerSeed(0), N_H1 * N_IN, HE_L1)[725] == -HE_L1
    ensures WeightsFrom(LayerSeed(1), N_H2 * N_H1, HE_L2)[203] == -HE_L2
    ensures WeightsFrom(LayerSeed(2), N_OUT * N_H2, HE_L3)[438] == -HE_L3
  {
    hide WeightsFrom, Nth, LayerSeed;
    WeightIsDraw(LayerSeed(0), N_H1 * N_IN, HE_L1, 725);
    Layer0Draw();
    WeightIsDraw(LayerSeed(1), N_H2 * N_H1, HE_L2, 203);
    Layer1Draw();
    WeightIsDraw(LayerSeed(2), N_OUT * N_H2, HE_L3, 438);
    Layer2Draw();
  }

  // ---- layers ----

  function Dot(x: seq<int>, w: seq<int>): int
    requires |x| == |w|
  {
    if x == [] then 0 else Dot(x[..|x| - 1], w[..|x| - 1]) + x[|x| - 1] * w[|x| - 1]
  }

  /** A sum of products, and every partial sum, is at most the count times both magnitudes. */
  lemma {:induction false} DotRange(x: seq<int>, w: seq<int>, a: int, b: int)
    requires |x| == |w| && a >= 0 && b >= 0 && Within(x, -a, a) && Within(w, -b, b)
    ensures -(|x| * (a * b)) <= Dot(x, w) <= |x| * (a * b)
    decreases |x|
  {
    if x == [] {
    } else {
      var l := |x| - 1;
      DotRange(x[..l], w[..l], a, b);
      ProductRange(x[l], w[l], a, b);
      CountStep(l, a * b);
    }
  }

  lemma CountStep(l: int, p: int)
    ensures (l + 1) * p == l * p + p
  {
  }

  lemma ProductRange(x: int, w: int, a: int, b: int)
    requires -a <= x <= a && -b <= w <= b
    ensures -(a * b) <= x * w <= a * b
  {
    var m: int := if x < 0 then -x else x;
    var n: int := if w < 0 then -w else w;
    SignedMono(m, a, n);
    SignedMono(n, b, a);
    Magnitudes(x, w);
  }

  lemma Magnitudes(x: int, w: int)
    ensures var m: int, n: int := if x < 0 then -x else x, if w < 0 then -w else w;
      x * w == m * n || x * w == -(m * n)
  {
  }

  /** Row `i` of a weight matrix. */
  function Row(w: seq<int>, i: nat, cols: nat): (r: seq<int>)
    requires (i + 1) * cols <= |w|
    ensures |r| == cols
  {
    MulMono(i, i + 1, cols);
    assert (i + 1) * cols == i * cols + cols;
    w[i * cols..i * cols + cols]
  }

  /** The accumulators of one layer. */
  function Accumulate(x: seq<int>, w: seq<int>, rows: nat): (acc: seq<int>)
    requires |w| == rows * |x|
    ensures |acc| == rows
  {
    seq(rows, i requires 0 <= i < rows =>
      MulMono(i + 1, rows, |x|);
      Dot(x, Row(w, i, |x|)))
  }

  lemma AccumulateRange(x: seq<int>, w: seq<int>, rows: nat, a: int, b: int)
    requires |w| == rows * |x| && a >= 0 && b >= 0 && Within(x, -a, a) && Within(w, -b, b)
    ensures Within(Accumulate(x, w, rows), -(|x| * (a * b)), |x| * (a * b))
  {
    forall i | 0 <= i < rows
      ensures -(|x| * (a * b)) <= Accumulate(x, w, rows)[i] <= |x| * (a * b)
    {
      MulMono(i + 1, rows, |x|);
      DotRange(x, Row(w, i, |x|), a, b);
    }
  }

  /** `(acc >> 10).max(0)`. */
  function Activate(acc: seq<int>): (h: seq<int>)
    ensures |h| == |acc|
  {
    seq(|acc|, i requires 0 <= i < |acc| => if acc[i] < 0 then 0 else acc[i] / 1024)
  }

  /** The exclusive or of the eight bytes of a signed 64-bit value. */
  function Fold(v: int): u8
    requires -0x8000_0000_0000_0000 <= v < 0x8000_0000_0000_0000
  {
    FoldBytes(ToDigits(256, if v < 0 then v + WORD else v, 8))
  }

  function FoldBytes(b: seq<nat>): u8
    requires InBase(256, b)
  {
    if b == [] then 0
    else
      ByteXor(FoldBytes(b[..|b| - 1]), b[|b| - 1]);
      Xor(FoldBytes(b[..|b| - 1]), b[|b| - 1])
  }

  lemma ByteXor(a: u8, b: u8)
    ensures Xor(a, b) < 256
  {
    assert Pow(2, 8) == 256;
    XorBound(a, b, 8);
  }

  /** The three accumulator rows of an input, with the weights the seeds generate. */
  function Centred(input: seq<u8>): (x: seq<int>)
    ensures |x| == |input| && Within(x, -128, 127)
  {
    seq(|input|, i requires 0 <= i < |input| => input[i] as int - 128)
  }

  function Acc1(input: seq<u8>): (r: seq<int>)
    requires |input| == N_IN
    ensures |r| == N_H1
  {
    Accumulate(Centred(input), WeightsFrom(LayerSeed(0), N_H1 * N_IN, HE_L1), N_H1)
  }

  function Acc2(input: seq<u8>): (r: seq<int>)
    requires |input| == N_IN
    ensures |r| == N_H2
  {
    Accumulate(Activate(Acc1(input)), WeightsFrom(LayerSeed(1), N_H2 * N_H1, HE_L2), N_H2)
  }

  function Acc3(input: seq<u8>): (r: seq<int>)
    requires |input| == N_IN
    ensures |r| == N_OUT
  {
    Accumulate(Activate(Acc2(input)), WeightsFrom(LayerSeed(2), N_OUT * N_H2, HE_L3), N_OUT)
  }

  lemma ActivateRange(acc: seq<int>, m: int)
    requires m >= 0 && Within(acc, -m, m)
    ensures Within(Activate(acc), 0, m / 1024)
  {
  }

  /** For every input: the accumulators stay within 1 048 576, 23 592 960 and 377 487 360, and
      the hidden activations within [0, 1024] and [0, 23 040]. */
  lemma LayerRanges(input: seq<u8>)
    requires |input| == N_IN
    ensures Within(Acc1(input), -1_048_576, 1_048_576)
    ensures Within(Activate(Acc1(input)), 0, 1024)
    ensures Within(Acc2(input), -23_592_960, 23_592_960)
    ensures Within(Activate(Acc2(input)), 0, 23_040)
    ensures Within(Acc3(input), -377_487_360, 377_487_360)
  {
    hide Accumulate, Activate, WeightsFrom, Centred;
    WeightsRange(LayerSeed(0), N_H1 * N_IN, HE_L1);
    WeightsRange(LayerSeed(1), N_H2 * N_H1, HE_L2);
    WeightsRange(LayerSeed(2), N_OUT * N_H2, HE_L3);
    AccumulateRange(Centred(input), WeightsFrom(LayerSeed(0), N_H1 * N_IN, HE_L1), N_H1, 128, HE_L1);
    ActivateRange(Acc1(input), 1_048_576);
    AccumulateRange(Activate(Acc1(input)), WeightsFrom(LayerSeed(1), N_H2 * N_H1, HE_L2), N_H2, 1024, HE_L2);
    ActivateRange(Acc2(input), 23_592_960);
    AccumulateRange(Activate(Acc2(input)), WeightsFrom(LayerSeed(2), N_OUT * N_H2, HE_L3), N_OUT, 23_040, HE_L3);
  }

  // The output loop.
  method FoldAll(acc: seq<int>) returns (out: seq<u8>)
    requires Within(acc, -377_487_360, 377_487_360)
    ensures |out| == |acc| && forall i :: 0 <= i < |acc| ==> out[i] == Fold(acc[i])
  {
    hide Fold;
    out := [];
    for i := 0 to |acc|
      invariant |out| == i && forall j :: 0 <= j < i ==> out[j] == Fold(acc[j])
    {
      out := out + [Fold(acc[i])];
    }
  }

  /** The forward pass: each output byte folds one third-layer accumulator. */
  method Forward(input: seq<u8>) returns (out: Digest)
    requires |input| == N_IN
    ensures Within(Acc3(input), -377_487_360, 377_487_360)
    ensures forall i :: 0 <= i < 32 ==> out[i] == Fold(Acc3(input)[i])
  {
    hide Accumulate, Activate, Fold, Centred, WeightsFrom, Within, LayerSeed;
    LayerRanges(input);
    var w1 := MakeWeights(N_H1, N_IN, 0, HE_L1);
    var h1 := Activate(Accumulate(Centred(input), w1, N_H1));
    var w2 := MakeWeights(N_H2, N_H1, 1, HE_L2);
    var h2 := Activate(Accumulate(h1, w2, N_H2));
    var w3 := MakeWeights(N_OUT, N_H2, 2, HE_L3);
    var h3 := Accumulate(h2, w3, N_OUT);
    out := FoldAll(h3);
  }
}
