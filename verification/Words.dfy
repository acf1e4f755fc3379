/** Bytes and 64-bit words as the numbers they denote, and the bit operations the
    miner applies to them.  Wrap-around is always written out. */
module Words {
  import opened Digits

  type u8 = x: int | 0 <= x < 0x100
  type u16 = x: int | 0 <= x < 0x1_0000
  type u32 = x: int | 0 <= x < 0x1_0000_0000
  type u64 = x: int | 0 <= x < 0x1_0000_0000_0000_0000

  const WORD: nat := 0x1_0000_0000_0000_0000

  lemma WordPowers()
    ensures Pow(2, 64) == WORD && Pow(256, 8) == WORD
  {
    assert Pow(2, 8) == 0x100 && Pow(256, 2) == 0x1_0000;
    PowAdd(2, 8, 8);
    PowAdd(2, 16, 16);
    PowAdd(2, 32, 32);
    PowAdd(256, 2, 2);
    PowAdd(256, 4, 4);
  }

  // ---- exclusive or, bit by bit ----

  function Xor(a: nat, b: nat): nat
    decreases a + b
  {
    if a == 0 && b == 0 then 0 else (if a % 2 == b % 2 then 0 else 1) + 2 * Xor(a / 2, b / 2)
  }

  lemma {:induction false} XorBound(a: nat, b: nat, n: nat)
    requires a < Pow(2, n) && b < Pow(2, n)
    ensures Xor(a, b) < Pow(2, n)
    decreases n
  {
    if n == 0 {
    } else {
      XorBound(a / 2, b / 2, n - 1);
    }
  }

  lemma XorHalf(a: nat, b: nat)
    ensures Xor(a, b) / 2 == Xor(a / 2, b / 2) && Xor(a, b) % 2 == if a % 2 == b % 2 then 0 else 1
  {
  }

  lemma {:induction false} XorCancel(a: nat, b: nat)
    ensures Xor(Xor(a, b), b) == a
    decreases a + b
  {
    if a == 0 && b == 0 {
    } else {
      XorCancel(a / 2, b / 2);
      XorHalf(a, b);
      var x := Xor(a, b);
      XorHalf(x, b);
      assert Xor(x, b) / 2 == a / 2 && Xor(x, b) % 2 == a % 2;
    }
  }

  lemma {:induction false} XorCommutes(a: nat, b: nat)
    ensures Xor(a, b) == Xor(b, a)
    decreases a + b
  {
    if a == 0 && b == 0 {
    } else {
      XorCommutes(a / 2, b / 2);
    }
  }

  lemma {:induction false} XorZero(a: nat)
    ensures Xor(a, 0) == a
  {
    if a == 0 {
    } else {
      XorZero(a / 2);
    }
  }

  lemma {:induction false} XorAssociates(a: nat, b: nat, c: nat)
    ensures Xor(Xor(a, b), c) == Xor(a, Xor(b, c))
    decreases a + b + c
  {
    if a == 0 && b == 0 && c == 0 {
    } else {
      XorAssociates(a / 2, b / 2, c / 2);
      XorHalf(a, b);
      XorHalf(b, c);
      XorHalf(Xor(a, b), c);
      XorHalf(a, Xor(b, c));
    }
  }

  lemma ShrStep(a: nat, s: nat)
    requires s > 0
    ensures a / Pow(2, s) == a / 2 / Pow(2, s - 1)
  {
    DivDiv(a, 2, Pow(2, s - 1));
  }

  lemma {:induction false} XorShr(a: nat, b: nat, s: nat)
    ensures Xor(a, b) / Pow(2, s) == Xor(a / Pow(2, s), b / Pow(2, s))
    decreases s
  {
    if s == 0 {
    } else {
      XorShr(a / 2, b / 2, s - 1);
      ShrStep(a, s);
      ShrStep(b, s);
      ShrStep(Xor(a, b), s);
      XorHalf(a, b);
    }
  }

  /** Exclusive or of two words. */
  function Xor64(a: u64, b: u64): (r: u64) {
    WordPowers();
    XorBound(a, b, 64);
    Xor(a, b)
  }

  lemma Xor64Injective(a: u64, b: u64, c: u64)
    requires Xor64(a, c) == Xor64(b, c)
    ensures a == b
  {
    XorCancel(a, c);
    XorCancel(b, c);
  }

  // ---- x ^= x >> s, and its inverse ----

  function XorShift(x: nat, s: nat): nat {
    Xor(x, x / Pow(2, s))
  }

  function UnXorShift(y: nat, s: nat): nat
    requires s > 0
    decreases y
  {
    if y == 0 then 0 else
      ShrSmaller(y, s);
      Xor(y, UnXorShift(y / Pow(2, s), s))
  }

  lemma ShrSmaller(y: nat, s: nat)
    requires s > 0 && y > 0
    ensures y / Pow(2, s) < y
  {
    DivDiv(y, 2, Pow(2, s - 1));
    DivShrinks(y / 2, Pow(2, s - 1));
  }

  lemma DivShrinks(y: nat, p: nat)
    requires p > 0
    ensures y / p <= y
  {
    MulMono(1, p, y / p);
  }

  lemma {:induction false} UnXorShiftBound(y: nat, s: nat, n: nat)
    requires s > 0 && y < Pow(2, n)
    ensures UnXorShift(y, s) < Pow(2, n)
    decreases y
  {
    hide Xor;
    if y == 0 {
      assert UnXorShift(y, s) == 0;
    } else {
      ShrSmaller(y, s);
      UnXorShiftBound(y / Pow(2, s), s, n);
      XorBound(y, UnXorShift(y / Pow(2, s), s), n);
    }
  }

  lemma {:induction false} UnXorShiftOfXorShift(x: nat, s: nat)
    requires s > 0
    ensures UnXorShift(XorShift(x, s), s) == x
    decreases x
  {
    if x == 0 {
    } else {
      var p := Pow(2, s);
      ShrSmaller(x, s);
      UnXorShiftOfXorShift(x / p, s);
      XorShr(x, x / p, s);
      XorCancel(x, x / p);
      XorCommutes(0, x / p);
      XorZero(x / p);
      assert XorShift(x, s) != 0;
    }
  }

  lemma XorMove(a: nat, b: nat, c: nat)
    requires Xor(a, b) == c
    ensures Xor(c, b) == a
  {
    XorCancel(a, b);
  }

  lemma XorShrMove(y: nat, u: nat, s: nat)
    requires XorShift(u, s) == y / Pow(2, s)
    ensures Xor(y, u) / Pow(2, s) == u
  {
    hide Xor, Pow;
    XorMove(u, u / Pow(2, s), y / Pow(2, s));
    XorShr(y, u, s);
  }

  lemma {:induction false} XorShiftOfUnXorShift(y: nat, s: nat)
    requires s > 0
    ensures XorShift(UnXorShift(y, s), s) == y
    decreases y
  {
    if y == 0 {
    } else {
      var p := Pow(2, s);
      ShrSmaller(y, s);
      var u := UnXorShift(y / p, s);
      XorShiftOfUnXorShift(y / p, s);
      ShrSmaller(y, s);
      XorShrMove(y, u, s);
      XorCancel(y, u);
    }
  }

  // ---- multiplication by an odd constant modulo 2^64 ----

  function WrapMul(x: u64, c: u64): u64 {
    x * c % WORD
  }

  // `d` undoes `c` when c * d is one more than a multiple of 2^64.
  lemma WrapMulInverse(x: u64, c: u64, d: u64, k: nat)
    requires c * d == k * WORD + 1
    ensures WrapMul(WrapMul(x, c), d) == x
  {
    var q, r := x * c / WORD, x * c % WORD;
    var t := x * k - q * d;
    assert r * d == x * (c * d) - q * d * WORD by {
      assert r == x * c - q * WORD;
      Expand(x, c, q, d);
    }
    assert x * (k * WORD + 1) == x * k * WORD + x by { Expand1(x, k); }
    assert r * d == t * WORD + x;
    DivModUnique(r * d, WORD, t, x);
  }

  lemma Expand(x: int, c: int, q: int, d: int)
    ensures (x * c - q * WORD) * d == x * (c * d) - q * d * WORD
  {
    assert (x * c - q * WORD) * d == x * c * d - q * WORD * d;
    assert x * c * d == x * (c * d);
    assert q * WORD * d == q * d * WORD;
  }

  lemma Expand1(x: int, k: int)
    ensures x * (k * WORD + 1) == x * k * WORD + x
  {
    assert x * (k * WORD) == x * k * WORD;
  }
}
