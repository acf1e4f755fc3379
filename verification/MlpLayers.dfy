/** What the network computes: every neuron is the sum of its inputs times the draws that are
    its weights, and every output byte folds the eight bytes of the last sums. */
module MlpLayers {
  import opened Digits
  import opened Words
  import opened Mlp

  /** `f(0) + f(1) + … + f(n - 1)`, from the first term on. */
  function Sum(f: nat -> int, from: nat, n: nat): int
    requires from <= n
    decreases n - from
  {
    if from == n then 0 else f(from) + Sum(f, from + 1, n)
  }

  lemma {:induction false} SumSnoc(f: nat -> int, from: nat, n: nat)
    requires from <= n
    ensures Sum(f, from, n + 1) == Sum(f, from, n) + f(n)
    decreases n - from
  {
    if from < n {
      SumSnoc(f, from + 1, n);
    } else {
      assert Sum(f, n + 1, n + 1) == 0;
    }
  }

  lemma {:induction false} DotIsSum(x: seq<int>, w: seq<int>, f: nat -> int)
    requires |x| == |w| && forall j :: 0 <= j < |x| ==> f(j) == x[j] * w[j]
    ensures Dot(x, w) == Sum(f, 0, |x|)
    decreases |x|
  {
    if x != [] {
      var l := |x| - 1;
      DotIsSum(x[..l], w[..l], f);
      SumSnoc(f, 0, l);
    }
  }

  /** Neuron `i` of a layer with generated weights takes the draws from `i * |x| + 1` on. */
  lemma NeuronIsSum(x: seq<int>, seed: u64, rows: nat, he: int, i: nat, f: nat -> int)
    requires i < rows
    requires forall j :: 0 <= j < |x| ==> f(j) == x[j] * Weight(Nth(seed, i * |x| + j + 1), he)
    ensures Accumulate(x, WeightsFrom(seed, rows * |x|, he), rows)[i] == Sum(f, 0, |x|)
  {
    hide Weight, Nth, WeightsFrom, Dot, Sum;
    var n, w := |x|, WeightsFrom(seed, rows * |x|, he);
    MulMono(i + 1, rows, n);
    assert (i + 1) * n == i * n + n;
    forall j | 0 <= j < n ensures f(j) == x[j] * Row(w, i, n)[j] {
      WeightIsDraw(seed, rows * n, he, i * n + j);
    }
    DotIsSum(x, Row(w, i, n), f);
  }

  /** First layer: 256 sums over the 32 input bytes, centred at 128. */
  lemma FirstLayer(input: seq<u8>, i: nat, f: nat -> int)
    requires |input| == 32 && i < 256
    requires forall j :: 0 <= j < 32 ==>
      f(j) == (input[j] - 128) * Weight(Nth(0x4B65_7279_784F_5000, i * 32 + j + 1), 256)
    ensures Acc1(input)[i] == Sum(f, 0, 32)
  {
    hide Weight, Nth, WeightsFrom, Accumulate, Sum, LayerSeed;
    LayerSeeds();
    NeuronIsSum(Centred(input), LayerSeed(0), 256, 256, i, f);
  }

  /** Second layer: 128 sums over the activated sums of the first. */
  lemma SecondLayer(input: seq<u8>, i: nat, f: nat -> int)
    requires |input| == 32 && i < 128
    requires forall j :: 0 <= j < 256 ==>
      f(j) == Activate(Acc1(input))[j] * Weight(Nth(0x2A13_3169_434D_6337, i * 256 + j + 1), 90)
    ensures Acc2(input)[i] == Sum(f, 0, 256)
  {
    hide Weight, Nth, WeightsFrom, Accumulate, Sum, LayerSeed, Activate, Acc1;
    LayerSeeds();
    NeuronIsSum(Activate(Acc1(input)), LayerSeed(1), 128, 90, i, f);
  }

  /** Third layer: 32 sums over the activated sums of the second. */
  lemma ThirdLayer(input: seq<u8>, i: nat, f: nat -> int)
    requires |input| == 32 && i < 32
    requires forall j :: 0 <= j < 128 ==>
      f(j) == Activate(Acc2(input))[j] * Weight(Nth(0x8C0_F059_0E4B_766E, i * 128 + j + 1), 128)
    ensures Acc3(input)[i] == Sum(f, 0, 128)
  {
    hide Weight, Nth, WeightsFrom, Accumulate, Sum, LayerSeed, Activate, Acc2;
    LayerSeeds();
    NeuronIsSum(Activate(Acc2(input)), LayerSeed(2), 32, 128, i, f);
  }

  /** An activation is the 1024th part of its sum, rounded down, and zero for a negative sum. */
  lemma ActivateExactly(acc: seq<int>, i: nat, h: int)
    requires i < |acc|
    ensures Activate(acc)[i] == h <==>
      if acc[i] < 0 then h == 0 else 1024 * h <= acc[i] < 1024 * h + 1024
  {
  }

  /** A weight is the signed upper half of the state, times the scale, over 2^31, rounded down. */
  lemma WeightExactly(state: u64, he: int, raw: int, w: int)
    requires -0x8000_0000 <= raw < 0x8000_0000 && (state / 0x1_0000_0000 - raw) % 0x1_0000_0000 == 0
    ensures Weight(state, he) == w <==> 0x8000_0000 * w <= raw * he < 0x8000_0000 * w + 0x8000_0000
  {
    assert Raw(state) == raw;
    hide Raw;
    var p := raw * he;
  }

  /** A byte of the output is the exclusive or of the eight bytes of the two's complement. */
  lemma FoldExactly(v: int, b: seq<u8>)
    requires -0x8000_0000_0000_0000 <= v < 0x8000_0000_0000_0000
    requires |b| == 8 && Value(256, b) == if v < 0 then v + 0x1_0000_0000_0000_0000 else v
    ensures Fold(v) == Xor(Xor(Xor(Xor(Xor(Xor(Xor(b[0], b[1]), b[2]), b[3]), b[4]), b[5]), b[6]), b[7])
  {
    hide Xor, Pow;
    ToDigitsValue(256, b);
    FoldEight(b);
  }

  lemma FoldNext(b: seq<u8>, k: nat)
    requires k < |b|
    ensures FoldBytes(b[..k + 1]) == Xor(FoldBytes(b[..k]), b[k])
  {
    hide Xor;
    assert b[..k + 1][..k] == b[..k];
  }

  lemma FoldEight(b: seq<u8>)
    requires |b| == 8
    ensures FoldBytes(b) == Xor(Xor(Xor(Xor(Xor(Xor(Xor(b[0], b[1]), b[2]), b[3]), b[4]), b[5]), b[6]), b[7])
  {
    hide Xor;
    XorCommutes(0, b[0]);
    XorZero(b[0]);
    assert FoldBytes(b[..0]) == 0;
    hide FoldBytes;
    FoldNext(b, 0);
    FoldNext(b, 1);
    FoldNext(b, 2);
    FoldNext(b, 3);
    FoldNext(b, 4);
    FoldNext(b, 5);
    FoldNext(b, 6);
    FoldNext(b, 7);
    assert b[..8] == b;
  }
}
