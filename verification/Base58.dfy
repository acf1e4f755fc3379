/** The base-58 encoder of the inference crate and the decoder of the miner crate: two carry
    loops over growing digit vectors, and exactly when each undoes the other. */
module Base58 {
  import opened Digits
  import opened Words
  import opened Wrappers

  // The alphabet, by its runs of consecutive characters.
  const RUN_1: string := "123456789"
  const RUN_A: string := "ABCDEFGH"
  const RUN_J: string := "JKLMN"
  const RUN_P: string := "PQRSTUVWXYZ"
  const RUN_a: string := "abcdefghijk"
  const RUN_m: string := "mnopqrstuvwxyz"
  const ALPHABET: string := RUN_1 + RUN_A + RUN_J + RUN_P + RUN_a + RUN_m

  // ---- canonical digit strings ----

  /** The least-significant-first digits of `v` without superfluous zeros; zero is one digit. */
  function Canon(base: nat, v: nat): (d: seq<nat>)
    requires base > 1
    ensures |d| > 0 && InBase(base, d)
    decreases v
  {
    if v < base then [v]
    else
      DivSmaller(v, base);
      [v % base] + Canon(base, v / base)
  }

  lemma DivSmaller(v: nat, base: nat)
    requires base > 1 && v > 0
    ensures v / base < v && v == base * (v / base) + v % base
    ensures v >= base ==> v / base > 0
  {
    assert v == base * (v / base) + v % base;
    if v / base >= v {
      MulMono(2, base, v / base);
    }
  }

  /** No superfluous leading zero. */
  predicate Trimmed(d: seq<nat>) {
    |d| > 0 && (|d| == 1 || d[|d| - 1] != 0)
  }

  lemma {:induction false} CanonValue(base: nat, v: nat)
    requires base > 1
    ensures Value(base, Canon(base, v)) == v && Trimmed(Canon(base, v))
    decreases v
  {
    if v < base {
      assert Value(base, [v]) == v + base * Value(base, []);
    } else {
      DivSmaller(v, base);
      var q, rest := v / base, Canon(base, v / base);
      CanonValue(base, q);
      assert Canon(base, v) == [v % base] + rest && ([v % base] + rest)[1..] == rest;
      if |rest| == 1 {
        assert Value(base, rest) == rest[0] + base * Value(base, []);
      }
    }
  }

  lemma {:induction false} TrimmedPositive(base: nat, d: seq<nat>)
    requires base > 1 && Trimmed(d) && |d| > 1
    ensures Value(base, d) >= base
    decreases |d|
  {
    if |d| == 2 {
      assert Value(base, d[1..]) == d[1] + base * Value(base, []);
      MulMono(1, d[1], base);
    } else {
      TrimmedPositive(base, d[1..]);
      MulMono(1, Value(base, d[1..]), base);
    }
  }

  lemma {:induction false} CanonUnique(base: nat, d: seq<nat>)
    requires base > 1 && InBase(base, d) && Trimmed(d)
    ensures Canon(base, Value(base, d)) == d
    decreases |d|
  {
    if |d| == 1 {
      assert Value(base, d) == d[0] + base * Value(base, []);
    } else {
      TrimmedPositive(base, d);
      CanonUnique(base, d[1..]);
      DivModUnique(Value(base, d), base, Value(base, d[1..]), d[0]);
    }
  }

  // ---- the carry loop ----

  lemma CarryStep(base: nat, factor: nat, p: nat, v: nat, c: nat, d: nat, w: nat, c0: nat, x: nat)
    requires base > 0 && v + p * c == factor * w + c0 && x == c + d * factor
    ensures v + p * (x % base) + base * p * (x / base) == factor * (w + p * d) + c0
  {
    var q, r := x / base, x % base;
    assert x == base * q + r;
    assert p * x == p * (base * q) + p * r;
    assert p * (base * q) == base * p * q;
    assert p * x == p * c + p * (d * factor);
    assert p * (d * factor) == factor * (p * d);
  }

  lemma ValueSnoc(base: nat, a: seq<nat>, x: nat)
    ensures Value(base, a + [x]) == Value(base, a) + Pow(base, |a|) * x
  {
    ValueAppend(base, a, [x]);
    assert Value(base, [x]) == x + base * Value(base, []);
  }

  // The first `i` digits have been rewritten and `c` is carried out of them.
  ghost predicate Passed(base: nat, factor: nat, digits: seq<nat>, carry: nat, r: seq<nat>, i: nat, c: nat) {
    && |r| == |digits| && i <= |r| && r[i..] == digits[i..] && InBase(base, r[..i])
    && Value(base, r[..i]) + Pow(base, i) * c == factor * Value(base, digits[..i]) + carry
    && (i > 0 && c == 0 && digits[i - 1] != 0 ==> r[i - 1] != 0)
  }

  lemma PassStep(base: nat, factor: nat, digits: seq<nat>, carry: nat, r: seq<nat>, i: nat, c: nat, x: nat)
    requires base > 1 && factor > 0 && i < |r| && Passed(base, factor, digits, carry, r, i, c) && x == c + r[i] * factor
    ensures Passed(base, factor, digits, carry, r[i := x % base], i + 1, x / base)
  {
    hide Value, Pow;
    var r' := r[i := x % base];
    CarryStep(base, factor, Pow(base, i), Value(base, r[..i]), c, digits[i], Value(base, digits[..i]), carry, x);
    TopStays(base, factor, c, digits[i], x);
    assert r'[..i + 1] == r[..i] + [x % base] && digits[..i + 1] == digits[..i] + [digits[i]];
    ValueSnoc(base, r[..i], x % base);
    ValueSnoc(base, digits[..i], digits[i]);
    PowStep(base, i);
  }

  // The pass over the digits already there.
  method CarryPass(base: nat, factor: nat, digits: seq<nat>, carry: nat) returns (r: seq<nat>, c: nat)
    requires base > 1 && factor > 0 && InBase(base, digits) && Trimmed(digits)
    ensures Carried(base, r, c, factor * Value(base, digits) + carry)
  {
    r, c := digits, carry;
    PassStart(base, factor, digits, carry);
    hide *;
    for i := 0 to |digits|
      invariant |r| == |digits| && Passed(base, factor, digits, carry, r, i, c)
    {
      var x := c + r[i] * factor;
      PassStep(base, factor, digits, carry, r, i, c, x);
      r, c := r[i := x % base], x / base;
    }
    PassEnd(base, factor, digits, carry, r, c);
  }

  lemma PassStart(base: nat, factor: nat, digits: seq<nat>, carry: nat)
    ensures Passed(base, factor, digits, carry, digits, 0, carry)
  {
  }

  lemma PassEnd(base: nat, factor: nat, digits: seq<nat>, carry: nat, r: seq<nat>, c: nat)
    requires Passed(base, factor, digits, carry, r, |digits|, c) && Trimmed(digits)
    ensures Carried(base, r, c, factor * Value(base, digits) + carry)
  {
    assert r[..|digits|] == r && digits[..|digits|] == digits;
  }

  // `r` and the carry out of it make up `total`.
  ghost predicate Carried(base: nat, r: seq<nat>, c: nat, total: nat) {
    InBase(base, r) && |r| > 0 && (c == 0 ==> Trimmed(r)) && Value(base, r) + Pow(base, |r|) * c == total
  }

  lemma CarryOut(base: nat, r: seq<nat>, c: nat, total: nat)
    requires base > 1 && c > 0 && Carried(base, r, c, total)
    ensures c / base < c && Carried(base, r + [c % base], c / base, total)
  {
    DivSmaller(c, base);
    ValueSnoc(base, r, c % base);
    PowStep(base, |r|);
    CarryStep(base, 0, Pow(base, |r|), Value(base, r), c, 0, 0, total, c);
  }

  lemma PowStep(base: nat, i: nat)
    ensures Pow(base, i + 1) == base * Pow(base, i)
  {
  }

  lemma TopStays(base: nat, factor: nat, c: nat, d: nat, x: nat)
    requires base > 1 && factor > 0 && x == c + d * factor
    ensures x % base < base && (x / base == 0 && d != 0 ==> x % base != 0)
  {
    assert x == base * (x / base) + x % base;
    if d != 0 {
      MulMono(1, d, factor);
    }
  }

  /** Multiplies a digit vector by `factor` and adds `carry`, in place, growing it as needed. */
  method MulAdd(base: nat, factor: nat, digits: seq<nat>, carry: nat) returns (r: seq<nat>)
    requires base > 1 && factor > 0 && InBase(base, digits) && Trimmed(digits)
    ensures r == Canon(base, factor * Value(base, digits) + carry)
  {
    var c: nat;
    r, c := CarryPass(base, factor, digits, carry);
    ghost var total := factor * Value(base, digits) + carry;
    while c > 0
      invariant Carried(base, r, c, total)
      decreases c
    {
      CarryOut(base, r, c, total);
      hide Carried;
      r := r + [c % base];
      c := c / base;
    }
    CanonUnique(base, r);
  }

  // ---- change of base with leading zeros kept ----

  function Rev<T>(s: seq<T>): (r: seq<T>)
    ensures |r| == |s|
  {
    seq(|s|, i requires 0 <= i < |s| => s[|s| - 1 - i])
  }

  lemma RevRev<T>(s: seq<T>)
    ensures Rev(Rev(s)) == s
  {
  }

  lemma RevAppend<T>(a: seq<T>, b: seq<T>)
    ensures Rev(a + b) == Rev(b) + Rev(a)
  {
  }

  /** The number a most-significant-first digit string denotes. */
  function NumberOf(base: nat, s: seq<nat>): nat {
    Value(base, Rev(s))
  }

  lemma NumberSnoc(base: nat, s: seq<nat>, x: nat)
    ensures NumberOf(base, s + [x]) == base * NumberOf(base, s) + x
  {
    RevAppend(s, [x]);
    assert Rev(s + [x]) == [x] + Rev(s) && ([x] + Rev(s))[1..] == Rev(s);
  }

  /** How many zeros a digit string starts with. */
  function Leading(s: seq<nat>): (n: nat)
    ensures n <= |s|
  {
    if s == [] || s[0] != 0 then 0 else 1 + Leading(s[1..])
  }

  function Zeros(n: nat): (z: seq<nat>)
    ensures |z| == n
  {
    seq(n, _ => 0)
  }

  /** The digits of the same number in another base, with as many leading zeros. */
  function Convert(from: nat, to: nat, s: seq<nat>): (r: seq<nat>)
    requires to > 1
    ensures InBase(to, r)
  {
    Zeros(Leading(s)) + Rev(Canon(to, NumberOf(from, s)))
  }

  lemma {:induction false} LeadingSplit(s: seq<nat>)
    ensures s == Zeros(Leading(s)) + s[Leading(s)..]
    ensures Leading(s) < |s| ==> s[Leading(s)] != 0
  {
    if s == [] || s[0] != 0 {
    } else {
      LeadingSplit(s[1..]);
    }
  }

  lemma {:induction false} LeadingOf(n: nat, t: seq<nat>)
    requires t == [] || t[0] != 0
    ensures Leading(Zeros(n) + t) == n
  {
    if n == 0 {
      assert Zeros(0) + t == t;
    } else {
      assert (Zeros(n) + t)[1..] == Zeros(n - 1) + t;
      LeadingOf(n - 1, t);
    }
  }

  lemma NumberSkipsZeros(base: nat, n: nat, t: seq<nat>)
    ensures NumberOf(base, Zeros(n) + t) == NumberOf(base, t)
  {
    RevAppend(Zeros(n), t);
    assert Rev(Zeros(n)) == seq(n, _ => 0);
    ValueAppend(base, Rev(t), Rev(Zeros(n)));
    ValueZeros(base, n);
  }

  // A digit string with a non-zero digit, cut after its leading zeros.
  lemma SignificantPart(base: nat, s: seq<nat>)
    requires base > 1 && InBase(base, s) && Leading(s) < |s|
    ensures var t := s[Leading(s)..];
      && Canon(base, NumberOf(base, s)) == Rev(t) && NumberOf(base, s) > 0
      && s == Zeros(Leading(s)) + t
  {
    var t := s[Leading(s)..];
    LeadingSplit(s);
    NumberSkipsZeros(base, Leading(s), t);
    hide Leading, Zeros, Value;
    CanonUnique(base, Rev(t));
    assert NumberOf(base, s) == Value(base, Rev(t));
    assert Canon(base, 0) == [0] && Rev(t)[|t| - 1] == t[0] != 0;
  }

  lemma ConvertKeepsNumber(from: nat, to: nat, s: seq<nat>)
    requires from > 1 && to > 1 && InBase(from, s) && Leading(s) < |s|
    ensures var y := Convert(from, to, s);
      InBase(to, y) && NumberOf(to, y) == NumberOf(from, s) && Leading(y) == Leading(s)
  {
    var v := NumberOf(from, s);
    var c := Canon(to, v);
    SignificantPart(from, s);
    CanonValue(to, v);
    RevRev(c);
    if |c| == 1 {
      assert Value(to, c) == c[0] + to * Value(to, []);
    }
    assert Rev(c)[0] == c[|c| - 1] != 0;
    LeadingOf(Leading(s), Rev(c));
    NumberSkipsZeros(to, Leading(s), Rev(c));
  }

  lemma ConvertZeros(from: nat, to: nat, n: nat)
    requires from > 1 && to > 1
    ensures Convert(from, to, Zeros(n)) == Zeros(n + 1)
  {
    assert Zeros(n) + [] == Zeros(n);
    LeadingOf(n, []);
    NumberSkipsZeros(from, n, []);
    assert Canon(to, 0) == [0] && Rev([0]) == [0];
  }

  /** Changing the base there and back is the identity exactly on the digit strings that
      have a non-zero digit; an all-zero or empty string comes back two digits longer. */
  lemma ConvertBackExactly(from: nat, to: nat, s: seq<nat>)
    requires from > 1 && to > 1 && InBase(from, s)
    ensures Convert(to, from, Convert(from, to, s)) == s <==> Leading(s) < |s|
    ensures Leading(s) == |s| ==> |Convert(to, from, Convert(from, to, s))| == |s| + 2
  {
    if Leading(s) < |s| {
      ConvertKeepsNumber(from, to, s);
      SignificantPart(from, s);
      RevRev(s[Leading(s)..]);
    } else {
      LeadingSplit(s);
      assert s == Zeros(|s|) + [] == Zeros(|s|);
      ConvertZeros(from, to, |s|);
      ConvertZeros(to, from, |s| + 1);
    }
  }

  // ---- characters ----

  function Symbol(d: nat): char
    requires d < 58
  {
    ALPHABET[d]
  }

  /** The reverse table: the digit of a character, if it is in the alphabet. */
  function DigitOf(c: char): Option<nat> {
    var n := c as nat;
    if 49 <= n <= 57 then Some(n - 49)
    else if 65 <= n <= 72 then Some(n - 65 + 9)
    else if 74 <= n <= 78 then Some(n - 74 + 17)
    else if 80 <= n <= 90 then Some(n - 80 + 22)
    else if 97 <= n <= 107 then Some(n - 97 + 33)
    else if 109 <= n <= 122 then Some(n - 109 + 44)
    else None
  }

  lemma RunCodes()
    ensures forall i :: 0 <= i < 9 ==> RUN_1[i] as nat == i + 49
    ensures forall i :: 0 <= i < 8 ==> RUN_A[i] as nat == i + 65
    ensures forall i :: 0 <= i < 5 ==> RUN_J[i] as nat == i + 74
    ensures forall i :: 0 <= i < 11 ==> RUN_P[i] as nat == i + 80
    ensures forall i :: 0 <= i < 11 ==> RUN_a[i] as nat == i + 97
    ensures forall i :: 0 <= i < 14 ==> RUN_m[i] as nat == i + 109
  {
  }

  lemma SymbolCode(d: nat)
    requires d < 58
    ensures ALPHABET[d] == if d < 9 then RUN_1[d] else if d < 17 then RUN_A[d - 9] else if d < 22 then RUN_J[d - 17]
      else if d < 33 then RUN_P[d - 22] else if d < 44 then RUN_a[d - 33] else RUN_m[d - 44]
  {
  }

  /** The table inverts the alphabet, both ways. */
  lemma TableInvertsAlphabet(d: nat, c: char)
    requires d < 58
    ensures DigitOf(c) == Some(d) <==> c == Symbol(d)
    ensures DigitOf(c).Some? ==> DigitOf(c).value < 58
  {
    hide RUN_1, RUN_A, RUN_J, RUN_P, RUN_a, RUN_m, ALPHABET;
    RunCodes();
    SymbolCode(d);
  }

  function ToChars(d: seq<nat>): (s: string)
    requires InBase(58, d)
    ensures |s| == |d|
  {
    seq(|d|, i requires 0 <= i < |d| => Symbol(d[i]))
  }

  predicate InAlphabet(s: string) {
    forall i :: 0 <= i < |s| ==> DigitOf(s[i]).Some?
  }

  function FromChars(s: string): (d: seq<nat>)
    requires InAlphabet(s)
    ensures |d| == |s| && InBase(58, d)
  {
    assert forall i :: 0 <= i < |s| ==> DigitOf(s[i]).value < 58 by {
      forall i | 0 <= i < |s| ensures DigitOf(s[i]).value < 58 { TableInvertsAlphabet(0, s[i]); }
    }
    seq(|s|, i requires 0 <= i < |s| => DigitOf(s[i]).value)
  }

  lemma CharsRoundTrip(d: seq<nat>, s: string)
    requires InBase(58, d)
    ensures InAlphabet(ToChars(d)) && FromChars(ToChars(d)) == d
    ensures InAlphabet(s) ==> ToChars(FromChars(s)) == s
  {
    hide Symbol, DigitOf;
    forall i | 0 <= i < |d| ensures DigitOf(Symbol(d[i])) == Some(d[i]) {
      TableInvertsAlphabet(d[i], Symbol(d[i]));
    }
    if InAlphabet(s) {
      forall i | 0 <= i < |s| ensures Symbol(FromChars(s)[i]) == s[i] {
        TableInvertsAlphabet(FromChars(s)[i], s[i]);
      }
    }
  }

  function Encode(input: seq<u8>): string {
    ToChars(Convert(256, 58, input))
  }

  function Decode(input: string): Option<seq<u8>> {
    if InAlphabet(input) then Some(Convert(58, 256, FromChars(input))) else None
  }

  // ---- the two loops of the source ----

  method Base58Encode(input: seq<u8>) returns (out: string)
    ensures out == Encode(input)
  {
    var digits: seq<nat> := [0];
    assert Canon(58, NumberOf(256, input[..0])) == [0];
    for i := 0 to |input|
      invariant digits == Canon(58, NumberOf(256, input[..i]))
    {
      hide Canon, NumberOf;
      CanonValue(58, NumberOf(256, input[..i]));
      digits := MulAdd(58, 256, digits, input[i]);
      NumberSnoc(256, input[..i], input[i]);
      assert input[..i + 1] == input[..i] + [input[i]];
    }
    assert input[..|input|] == input;
    out := EmitDigits(Leading(input), digits);
    ToCharsZeros(Leading(input), Rev(digits));
  }

  // One '1' per leading zero, then the digits from the most significant.
  method EmitDigits(leading: nat, digits: seq<nat>) returns (out: string)
    requires InBase(58, digits)
    ensures out == seq(leading, _ => '1') + ToChars(Rev(digits))
  {
    out := "";
    for i := 0 to leading
      invariant out == seq(i, _ => '1')
    {
      out := out + ['1'];
    }
    ghost var all := ToChars(Rev(digits));
    for i := 0 to |digits|
      invariant out == seq(leading, _ => '1') + all[..i]
    {
      out := out + [Symbol(digits[|digits| - 1 - i])];
      assert all[..i + 1] == all[..i] + [all[i]];
    }
    assert all[..|digits|] == all;
  }

  lemma ToCharsZeros(n: nat, t: seq<nat>)
    requires InBase(58, t)
    ensures ToChars(Zeros(n) + t) == seq(n, _ => '1') + ToChars(t)
  {
    RunCodes();
    SymbolCode(0);
    TableInvertsAlphabet(0, '1');
  }

  method Base58Decode(input: string) returns (out: Option<seq<u8>>)
    ensures out == Decode(input)
  {
    var result: seq<nat> := [0];
    assert Canon(256, NumberOf(58, [])) == [0];
    ghost var seen: seq<nat> := [];
    for i := 0 to |input|
      invariant InAlphabet(input[..i]) && seen == FromChars(input[..i])
      invariant result == Canon(256, NumberOf(58, seen))
    {
      hide Canon, NumberOf, DigitOf;
      var d := DigitOf(input[i]);
      if d.None? { return None; }
      assert input[..i + 1] == input[..i] + [input[i]];
      CanonValue(256, NumberOf(58, seen));
      result := MulAdd(256, 58, result, d.value);
      NumberSnoc(58, seen, d.value);
      seen := seen + [d.value];
    }
    assert input[..|input|] == input;
    LeadingOnes(input);
    out := Some(Zeros(LeadingChars(input)) + Rev(result));
  }

  /** `take_while(== '1').count()`. */
  function LeadingChars(s: string): nat {
    if s == "" || s[0] != '1' then 0 else 1 + LeadingChars(s[1..])
  }

  lemma {:induction false} LeadingOnes(s: string)
    requires InAlphabet(s)
    ensures LeadingChars(s) == Leading(FromChars(s))
  {
    if s == "" {
    } else {
      LeadingOnes(s[1..]);
      assert FromChars(s)[1..] == FromChars(s[1..]);
    }
  }

  // ---- round trips ----

  /** Decoding an encoding gives the bytes back exactly when one of them is non-zero. */
  lemma DecodeOfEncodeExactly(x: seq<u8>)
    ensures Decode(Encode(x)) == Some(x) <==> exists i :: 0 <= i < |x| && x[i] != 0
  {
    hide Convert, ToChars, FromChars;
    CharsRoundTrip(Convert(256, 58, x), "");
    ConvertBackExactly(256, 58, x);
    LeadingIsAll(x);
  }

  /** Encoding a decoding gives the string back exactly when it has a character other than '1'. */
  lemma EncodeOfDecodeExactly(s: string)
    requires InAlphabet(s)
    ensures Decode(s).Some?
    ensures Encode(Decode(s).value) == s <==> exists i :: 0 <= i < |s| && s[i] != '1'
  {
    hide Convert, ToChars;
    var d := FromChars(s);
    var back := Convert(256, 58, Convert(58, 256, d));
    ConvertBackExactly(58, 256, d);
    CharsRoundTrip(back, s);
    LeadingIsAll(d);
    forall i | 0 <= i < |s| ensures d[i] != 0 <==> s[i] != '1' { }
    if ToChars(back) == s { assert back == FromChars(ToChars(back)) == d; }
  }

  lemma {:induction false} LeadingIsAll(s: seq<nat>)
    ensures Leading(s) < |s| <==> exists i :: 0 <= i < |s| && s[i] != 0
  {
    if s == [] || s[0] != 0 {
    } else {
      LeadingIsAll(s[1..]);
      if i :| 0 <= i < |s| && s[i] != 0 { assert s[1..][i - 1] != 0; }
      if i :| 0 <= i < |s[1..]| && s[1..][i] != 0 { assert s[i + 1] != 0; }
    }
  }

  // ---- CIDs ----

  /** A raw sha2-256 multihash. */
  predicate IsMultihash(m: seq<u8>) {
    |m| == 34 && m[0] == 0x12 && m[1] == 0x20
  }

  function CidToMultihash(cid: string): Result<seq<u8>> {
    match Decode(cid)
    case None => Err("invalid base58")
    case Some(bytes) => if IsMultihash(bytes) then Ok(bytes) else Err("not a CIDv0 sha2-256 multihash")
  }

  /** A string is accepted for a multihash exactly when it is the CID the encoder prints for it. */
  lemma CidExactly(cid: string, m: seq<u8>)
    ensures CidToMultihash(cid) == Ok(m) <==> IsMultihash(m) && cid == Encode(m)
  {
    hide Convert, ToChars, FromChars, DigitOf;
    if IsMultihash(m) {
      DecodeOfEncodeExactly(m);
      assert m[0] != 0;
    }
    if CidToMultihash(cid) == Ok(m) {
      EncodeOfDecodeExactly(cid);
      OnesDecodeToZeros(cid);
    }
  }

  lemma OnesDecodeToZeros(s: string)
    requires InAlphabet(s) && Decode(s).value != [] && Decode(s).value[0] != 0
    ensures exists i :: 0 <= i < |s| && s[i] != '1'
  {
    var d := FromChars(s);
    LeadingIsAll(d);
    if Leading(d) == |d| {
      LeadingSplit(d);
      assert d == Zeros(|d|) + [] == Zeros(|d|);
      ConvertZeros(58, 256, |d|);
      assert false;
    }
    var i :| 0 <= i < |d| && d[i] != 0;
    assert s[i] != '1';
  }
}
