/** Positional number systems and the few facts about division that the other
    modules share.  Digit strings are little-endian: index 0 is least significant. */
module Digits {

  function Pow(base: nat, n: nat): (p: nat)
    ensures base > 0 ==> p > 0
  {
    if n == 0 then 1 else base * Pow(base, n - 1)
  }

  lemma {:induction false} PowAdd(base: nat, m: nat, n: nat)
    ensures Pow(base, m + n) == Pow(base, m) * Pow(base, n)
  {
    if m == 0 {
    } else {
      PowAdd(base, m - 1, n);
      MulAssoc(base, Pow(base, m - 1), Pow(base, n));
    }
  }

  lemma MulAssoc(a: int, b: int, c: int)
    ensures a * (b * c) == (a * b) * c
  {
  }

  // A quotient and a remainder determine their dividend, and conversely.
  lemma DivModUnique(x: int, d: int, q: int, r: int)
    requires d > 0 && 0 <= r < d && x == q * d + r
    ensures x / d == q && x % d == r
  {
    var q', r' := x / d, x % d;
    assert x == d * q' + r';
    assert (q - q') * d == r' - r;
    if q > q' {
      assert (q - q') * d >= d by { MulMono(1, q - q', d); }
    } else if q < q' {
      assert (q' - q) * d >= d by { MulMono(1, q' - q, d); }
    }
  }

  lemma MulMono(a: int, b: int, d: int)
    requires a <= b && 0 <= d
    ensures a * d <= b * d
  {
  }

  lemma DigitBelow(b: nat, r: nat, v: nat, p: nat)
    requires r < b && v < p
    ensures r + b * v < b * p
  {
    MulMono(v + 1, p, b);
  }

  lemma DivDiv(x: nat, a: nat, b: nat)
    requires a > 0 && b > 0
    ensures a * b > 0 && x / a / b == x / (a * b)
  {
    DivModDivMod(x, a, b);
  }

  /** Dividing twice is dividing by the product, for quotient and remainder. */
  lemma DivModDivMod(x: nat, a: nat, b: nat)
    requires a > 0 && b > 0
    ensures a * b > 0 && x / a / b == x / (a * b)
    ensures x % (a * b) == x % a + a * (x / a % b)
  {
    var q, s, r := x / a / b, x / a % b, x % a;
    assert x / a == b * q + s;
    assert x == a * (b * q + s) + r;
    Regroup(a, b, q, s);
    DigitBelow(a, r, s, b);
    DivModUnique(x, a * b, q, r + a * s);
  }

  lemma Regroup(a: int, b: int, q: int, s: int)
    ensures a * (b * q + s) == q * (a * b) + a * s
  {
  }

  // ---- digit strings ----

  /** The number a little-endian digit string denotes. */
  function Value(base: nat, d: seq<nat>): nat {
    if d == [] then 0 else d[0] + base * Value(base, d[1..])
  }

  predicate InBase(base: nat, d: seq<nat>) {
    forall i :: 0 <= i < |d| ==> d[i] < base
  }

  /** The `n` least significant digits of `x`. */
  function ToDigits(base: nat, x: nat, n: nat): (d: seq<nat>)
    requires base > 0
    ensures |d| == n && InBase(base, d)
    decreases n, x
  {
    if n == 0 then [] else [x % base] + ToDigits(base, x / base, n - 1)
  }

  lemma {:induction false} ValueBound(base: nat, d: seq<nat>)
    requires InBase(base, d)
    ensures Value(base, d) < Pow(base, |d|)
    decreases |d|
  {
    if d == [] {
    } else {
      ValueBound(base, d[1..]);
      DigitBelow(base, d[0], Value(base, d[1..]), Pow(base, |d| - 1));
    }
  }

  lemma {:induction false} ValueAppend(base: nat, a: seq<nat>, b: seq<nat>)
    ensures Value(base, a + b) == Value(base, a) + Pow(base, |a|) * Value(base, b)
  {
    if a == [] {
      assert a + b == b;
    } else {
      ValueAppend(base, a[1..], b);
      assert (a + b)[1..] == a[1..] + b;
      MulAssoc(base, Pow(base, |a| - 1), Value(base, b));
      assert Pow(base, |a|) == base * Pow(base, |a| - 1);
      assert Value(base, a + b) == a[0] + base * Value(base, (a + b)[1..]);
    }
  }

  lemma {:induction false} ValueToDigits(base: nat, x: nat, n: nat)
    requires base > 0
    ensures Value(base, ToDigits(base, x, n)) == x % Pow(base, n)
    ensures x < Pow(base, n) ==> Value(base, ToDigits(base, x, n)) == x
    decreases n
  {
    if n == 0 {
    } else {
      ValueToDigits(base, x / base, n - 1);
      assert ToDigits(base, x, n)[1..] == ToDigits(base, x / base, n - 1);
      DivModDivMod(x, base, Pow(base, n - 1));
      if x < Pow(base, n) {
        DivModUnique(x, Pow(base, n), 0, x);
      }
    }
  }

  lemma {:induction false} ToDigitsValue(base: nat, d: seq<nat>)
    requires base > 0 && InBase(base, d)
    ensures ToDigits(base, Value(base, d), |d|) == d
  {
    if d == [] {
    } else {
      ToDigitsValue(base, d[1..]);
      DivModUnique(Value(base, d), base, Value(base, d[1..]), d[0]);
    }
  }

  /** The digit where two strings first differ from the top decides their order. */
  lemma {:induction false} TopDigitDecides(base: nat, a: seq<nat>, b: seq<nat>, i: nat)
    requires base > 0 && InBase(base, a) && InBase(base, b) && |a| == |b| && i < |a|
    requires a[i] < b[i] && a[i + 1..] == b[i + 1..]
    ensures Value(base, a) < Value(base, b)
    decreases i
  {
    if i == 0 {
    } else {
      assert a[1..][i..] == a[i + 1..] && b[1..][i..] == b[i + 1..];
      TopDigitDecides(base, a[1..], b[1..], i - 1);
      DigitBelow(base, a[0], Value(base, a[1..]), Value(base, b[1..]));
    }
  }

  lemma {:induction false} ValueZeros(base: nat, n: nat)
    ensures Value(base, seq(n, _ => 0)) == 0
  {
    if n == 0 {
    } else {
      var z: seq<nat> := seq(n, _ => 0);
      assert z[1..] == seq(n - 1, _ => 0);
      ValueZeros(base, n - 1);
    }
  }
}
