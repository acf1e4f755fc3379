/** The comparison routines of the miner and of its CUDA kernel.  Each walks its
    operands from the most significant end; all decide the order of the numbers. */
module Order {
  import opened Digits
  import opened Words
  import opened Merkle
  import opened Pom

  /** A 32-byte little-endian string as a 256-bit number. */
  function Num(b: Digest): nat {
    Value(256, b)
  }

  /** The order `le_leq` decides. */
  predicate LeLeq(a: Digest, b: Digest) {
    Num(a) <= Num(b)
  }

  method LeLeqLoop(a: Digest, b: Digest) returns (ok: bool)
    ensures ok <==> LeLeq(a, b)
  {
    var i := 32;
    while i > 0
      invariant 0 <= i <= 32 && a[i..] == b[i..]
    {
      i := i - 1;
      if a[i] < b[i] {
        TopDigitDecides(256, a, b, i);
        return true;
      }
      if a[i] > b[i] {
        TopDigitDecides(256, b, a, i);
        return false;
      }
    }
    assert a == a[0..] && b == b[0..];
    return true;
  }

  /** The strict comparison of the RandomX engine. */
  method MeetsTarget(hash: Digest, target: Digest) returns (ok: bool)
    ensures ok <==> Num(hash) < Num(target)
  {
    var i := 32;
    while i > 0
      invariant 0 <= i <= 32 && hash[i..] == target[i..]
    {
      i := i - 1;
      if hash[i] < target[i] {
        TopDigitDecides(256, hash, target, i);
        return true;
      }
      if hash[i] > target[i] {
        TopDigitDecides(256, target, hash, i);
        return false;
      }
    }
    assert hash == hash[0..] && target == target[0..];
    return false;
  }

  /** The kernel's comparison, word by word. */
  predicate PomLeLeq(a: Quad, b: Quad) {
    if a[3] != b[3] then a[3] < b[3]
    else if a[2] != b[2] then a[2] < b[2]
    else if a[1] != b[1] then a[1] < b[1]
    else a[0] <= b[0]
  }

  datatype Ordering = Less | Equal | Greater

  /** Lexicographic comparison of the reversed word lists. */
  function Cmp(a: seq<u64>, b: seq<u64>): Ordering
    requires |a| == |b|
  {
    var l := |a| - 1;
    if a == [] then Equal
    else if a[l] < b[l] then Less
    else if a[l] > b[l] then Greater
    else Cmp(a[..l], b[..l])
  }

  function CompareNumbers(x: int, y: int): Ordering {
    if x < y then Less else if x > y then Greater else Equal
  }

  lemma {:induction false} CmpIsNumeric(a: seq<u64>, b: seq<u64>)
    requires |a| == |b|
    ensures Cmp(a, b) == CompareNumbers(Value(WORD, a), Value(WORD, b))
  {
    var l := |a| - 1;
    if a == [] {
    } else if a[l] < b[l] {
      TopDigitDecides(WORD, a, b, l);
    } else if a[l] > b[l] {
      TopDigitDecides(WORD, b, a, l);
    } else {
      CmpIsNumeric(a[..l], b[..l]);
      assert a == a[..l] + [a[l]] && b == b[..l] + [a[l]];
      ValueAppend(WORD, a[..l], [a[l]]);
      ValueAppend(WORD, b[..l], [a[l]]);
    }
  }

  lemma PomLeLeqIsNumeric(a: Quad, b: Quad)
    ensures PomLeLeq(a, b) <==> Value(WORD, a) <= Value(WORD, b)
  {
    if a[3] != b[3] {
      PickTop(a, b, 3);
    } else if a[2] != b[2] {
      PickTop(a, b, 2);
    } else if a[1] != b[1] {
      PickTop(a, b, 1);
    } else if a[0] != b[0] {
      PickTop(a, b, 0);
    } else {
      assert a == b;
    }
  }

  lemma PickTop(a: Quad, b: Quad, i: nat)
    requires i < 4 && a[i] != b[i] && a[i + 1..] == b[i + 1..]
    ensures a[i] < b[i] <==> Value(WORD, a) <= Value(WORD, b)
  {
    if a[i] < b[i] {
      TopDigitDecides(WORD, a, b, i);
    } else {
      TopDigitDecides(WORD, b, a, i);
    }
  }

  lemma {:induction false} FourWords(a: seq<u8>, b: seq<u8>)
    requires |a| == 8
    ensures Value(256, a + b) == Value(256, a) + WORD * Value(256, b)
  {
    ValueAppend(256, a, b);
    WordPowers();
  }

  /** Reading 32 bytes as four words does not change the number. */
  lemma NumOfWords(w: Quad)
    ensures Num(ToBytes(w)) == Value(WORD, w)
  {
    var b0, b1, b2, b3 := ToLe8(w[0]), ToLe8(w[1]), ToLe8(w[2]), ToLe8(w[3]);
    assert ToBytes(w) == b0 + (b1 + (b2 + (b3 + [])));
    FourWords(b0, b1 + (b2 + (b3 + [])));
    FourWords(b1, b2 + (b3 + []));
    FourWords(b2, b3 + []);
    FourWords(b3, []);
    Le8RoundTrip(w[0]);
    Le8RoundTrip(w[1]);
    Le8RoundTrip(w[2]);
    Le8RoundTrip(w[3]);
    QuadValue(w);
  }

  lemma QuadValue(w: Quad)
    ensures Value(WORD, w) == w[0] + WORD * (w[1] + WORD * (w[2] + WORD * w[3]))
  {
    var w1, w2, w3, w4 := w[1..], w[2..], w[3..], w[4..];
    assert w1[1..] == w2 && w2[1..] == w3 && w3[1..] == w4 && w4 == [];
    assert Value(WORD, w3) == w[3];
    assert Value(WORD, w2) == w[2] + WORD * Value(WORD, w3);
  }

  /** The host's byte-wise test, the kernel's word-wise test and the word ordering of
      the target type accept exactly the same pairs. */
  lemma ComparisonsAgree(a: Digest, b: Digest)
    ensures LeLeq(a, b) <==> PomLeLeq(ToWords(a), ToWords(b))
    ensures LeLeq(a, b) <==> Cmp(ToWords(a), ToWords(b)) != Greater
  {
    BytesOfWords(a);
    BytesOfWords(b);
    NumOfWords(ToWords(a));
    NumOfWords(ToWords(b));
    PomLeLeqIsNumeric(ToWords(a), ToWords(b));
    CmpIsNumeric(ToWords(a), ToWords(b));
  }
}
