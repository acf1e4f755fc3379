/** Regrouping the five-bit characters of an address into bytes, through a 32-bit buffer
    that drops high bits. */
module Address {
  import opened Digits
  import opened Words
  import opened Merkle
  import opened Wrappers
  import opened Base58

  const CHARSET: string := "qpzry9x8gf2tvdw0s3jn54khce6mua7l"

  type u5 = x: int | 0 <= x < 32

  /** `x` as `n` bytes, most significant first. */
  function BigEndian(x: nat, n: nat): (b: seq<u8>)
    ensures |b| == n
  {
    Rev(ToDigits(256, x, n))
  }

  /** The first floor(5n/8) bytes of the bit string that `n` five-bit characters spell. */
  function Regrouped(data: seq<u5>): (b: seq<u8>)
    ensures |b| == 5 * |data| / 8
  {
    BigEndian(NumberOf(32, data) / Pow(2, 5 * |data| % 8), 5 * |data| / 8)
  }

  // ---- one character ----

  lemma SmallPowers()
    ensures Pow(2, 0) == 1 && Pow(2, 1) == 2 && Pow(2, 2) == 4 && Pow(2, 3) == 8 && Pow(2, 4) == 16 && Pow(2, 5) == 32
    ensures Pow(2, 6) == 64 && Pow(2, 7) == 128 && Pow(2, 8) == 256
  {
  }

  // The buffer holds the number read so far modulo 2^32.
  lemma BufferStep(v: nat, buf: nat, b: u5)
    requires buf == v % 0x1_0000_0000
    ensures buf * 32 % 0x1_0000_0000 + b == (32 * v + b) % 0x1_0000_0000
  {
    var h := v / 0x1_0000_0000;
    assert v == 0x1_0000_0000 * h + buf;
    var k, l := buf / 0x800_0000, buf % 0x800_0000;
    assert buf * 32 == 0x1_0000_0000 * k + 32 * l;
    DivModUnique(buf * 32, 0x1_0000_0000, k, 32 * l);
    DivModUnique(32 * v + b, 0x1_0000_0000, 32 * h + k, 32 * l + b);
  }

  // Dropping the bits above 2^32 does not change a byte taken at most seven bits up.
  lemma ByteFromBuffer(v: nat, buf: nat, s: nat)
    requires buf == v % 0x1_0000_0000 && s < 8
    ensures buf / Pow(2, s) % 256 == v / Pow(2, s) % 256
  {
    hide Pow;
    var h, p, c := v / 0x1_0000_0000, Pow(2, s), Pow(2, 24 - s);
    Complement(s);
    TakeOut(v, buf, h, p, 256 * c);
    AddMultiple(c * h, buf / p, 256 * c * h);
  }

  lemma Complement(s: nat)
    requires s < 8
    ensures Pow(2, s) * (256 * Pow(2, 24 - s)) == 0x1_0000_0000
  {
    hide Pow;
    PowAdd(2, s, 24 - s);
    PowAdd(2, 8, 16);
    PowAdd(2, 8, 8);
    SmallPowers();
    MulAssoc(Pow(2, s), 256, Pow(2, 24 - s));
    MulAssoc(256, Pow(2, s), Pow(2, 24 - s));
  }

  lemma TakeOut(v: nat, buf: nat, h: nat, p: nat, m: nat)
    requires p > 0 && p * m == 0x1_0000_0000 && v == 0x1_0000_0000 * h + buf
    ensures v / p == m * h + buf / p
  {
    assert v == p * (m * h) + buf by { assert p * m * h == p * (m * h); }
    DivModUnique(v, p, m * h + buf / p, buf % p);
  }

  lemma AddMultiple(k: nat, x: nat, y: nat)
    requires y == 256 * k
    ensures (y + x) % 256 == x % 256
  {
  }

  // Appending five bits: the bytes above position `r + 5` are those that were above `r`.
  lemma QuotientKept(v: nat, b: u5, r: nat)
    ensures (32 * v + b) / Pow(2, r + 5) == v / Pow(2, r)
  {
    SmallPowers();
    PowAdd(2, 5, r);
    DivDiv(32 * v + b, 32, Pow(2, r));
  }

  lemma QuotientSplits(v: nat, r: nat)
    ensures v / Pow(2, r) == 256 * (v / Pow(2, r + 8)) + v / Pow(2, r) % 256
  {
    PowAdd(2, r, 8);
    assert Pow(2, 8) == 256;
    DivDiv(v, Pow(2, r), 256);
  }

  // The buffer ends the number `v` read so far, `w` is all of `v` but its last `bits` bits.
  ghost predicate Buffered(v: nat, w: nat, buf: u32, bits: nat) {
    buf == v % 0x1_0000_0000 && w == v / Pow(2, bits)
  }

  // What the loop has after reading the characters `read`.
  ghost predicate Grouped(read: seq<u5>, bytes: seq<u8>, buf: u32, bits: nat) {
    8 * |bytes| + bits == 5 * |read| && Buffered(NumberOf(32, read), NumberOf(256, bytes), buf, bits)
  }

  lemma ReadFive(read: seq<u5>, bytes: seq<u8>, buf: u32, bits: nat, b: u5)
    requires Grouped(read, bytes, buf, bits)
    ensures var buf' := buf * 32 % 0x1_0000_0000 + b;
      buf' < 0x1_0000_0000 && Grouped(read + [b], bytes, buf', bits + 5)
  {
    hide Pow, NumberOf;
    var v := NumberOf(32, read);
    BufferStep(v, buf, b);
    NumberSnoc(32, read, b);
    QuotientKept(v, b, bits);
  }

  lemma TakeByte(read: seq<u5>, bytes: seq<u8>, buf: u32, bits: nat)
    requires Grouped(read, bytes, buf, bits + 8) && bits < 8
    ensures Grouped(read, bytes + [buf / Pow(2, bits) % 256], buf, bits)
  {
    hide Pow, NumberOf;
    var v := NumberOf(32, read);
    ByteFromBuffer(v, buf, bits);
    QuotientSplits(v, bits);
    NumberSnoc(256, bytes, buf / Pow(2, bits) % 256);
  }

  lemma GroupedStart()
    ensures Grouped([], [], 0, 0)
  {
  }

  /** The loop: for every length, exactly the complete bytes of the bit string. */
  method Regroup(data: seq<u5>) returns (bytes: seq<u8>)
    ensures bytes == Regrouped(data)
  {
    hide *;
    bytes := [];
    var buf: u32, bits: nat := 0, 0;
    assert data[..0] == [];
    GroupedStart();
    for i := 0 to |data|
      invariant bits < 8 && Grouped(data[..i], bytes, buf, bits)
    {
      ReadFive(data[..i], bytes, buf, bits, data[i]);
      assert data[..i + 1] == data[..i] + [data[i]];
      buf := buf * 32 % 0x1_0000_0000 + data[i];
      bits := bits + 5;
      if bits >= 8 {
        bits := bits - 8;
        TakeByte(data[..i + 1], bytes, buf, bits);
        bytes := bytes + [buf / Pow(2, bits) % 256];
      }
    }
    assert data[..|data|] == data;
    GroupedFully(data, bytes, buf, bits);
  }

  lemma GroupedFully(data: seq<u5>, bytes: seq<u8>, buf: u32, bits: nat)
    requires Grouped(data, bytes, buf, bits) && bits < 8
    ensures bytes == Regrouped(data)
  {
    hide Pow, NumberOf, BigEndian;
    BytesAreDigits(bytes);
  }

  lemma BytesAreDigits(bytes: seq<u8>)
    ensures bytes == BigEndian(NumberOf(256, bytes), |bytes|)
  {
    var d: seq<nat> := bytes;
    ToDigitsValue(256, Rev(d));
    RevRev(d);
  }

  // ---- the inverse, and the whole address ----

  /** The five-bit characters of a byte string, zero-padded at the end. */
  function Spelled(payload: seq<u8>): (d: seq<u5>)
    ensures |d| == (8 * |payload| + 4) / 5
  {
    var n := (8 * |payload| + 4) / 5;
    Rev(ToDigits(32, NumberOf(256, payload) * Pow(2, 5 * n % 8), n))
  }

  /** Regrouping gives back every payload from its spelling. */
  lemma RegroupInvertsSpelling(payload: seq<u8>)
    ensures Regrouped(Spelled(payload)) == payload
  {
    hide Pow, Value;
    var m, n, v := |payload|, (8 * |payload| + 4) / 5, NumberOf(256, payload);
    var r := 5 * n % 8;
    assert 5 * n == 8 * m + r && 5 * n / 8 == m;
    SpelledNumber(payload, n, r);
    assert v * Pow(2, r) / Pow(2, r) == v by { DivModUnique(v * Pow(2, r), Pow(2, r), v, 0); }
    BytesAreDigits(payload);
  }

  lemma SpelledNumber(payload: seq<u8>, n: nat, r: nat)
    requires n == (8 * |payload| + 4) / 5 && r == 5 * n % 8 && 5 * n == 8 * |payload| + r
    ensures NumberOf(32, Spelled(payload)) == NumberOf(256, payload) * Pow(2, r)
  {
    hide Pow, Value;
    var v := NumberOf(256, payload);
    SpellingFits(payload, n, r);
    ValueToDigits(32, v * Pow(2, r), n);
    RevRev(ToDigits(32, v * Pow(2, r), n));
  }

  lemma SpellingFits(payload: seq<u8>, n: nat, r: nat)
    requires 5 * n == 8 * |payload| + r
    ensures NumberOf(256, payload) * Pow(2, r) < Pow(32, n)
  {
    hide Pow, Value;
    var p: seq<nat> := payload;
    ValueBound(256, Rev(p));
    PowOf(8, |payload|);
    PowOf(5, n);
    PowAdd(2, 8 * |payload|, r);
    MulMono(NumberOf(256, payload) + 1, Pow(256, |payload|), Pow(2, r));
  }

  // 2^(k n) is the n-th power of 2^k.
  lemma {:induction false} PowOf(k: nat, n: nat)
    requires k == 8 || k == 5
    ensures Pow(2, k * n) == Pow(if k == 8 then 256 else 32, n)
  {
    SmallPowers();
    if n == 0 {
    } else {
      PowOf(k, n - 1);
      PowAdd(2, k, k * (n - 1));
      assert Pow(2, 8) == 256;
    }
  }

  function IndexIn<T(==)>(s: seq<T>, x: T): (r: Option<nat>)
    ensures r.Some? ==> r.value < |s| && s[r.value] == x
    ensures r.None? ==> x !in s
    ensures r.Some? ==> x !in s[..r.value]
  {
    if s == [] then None
    else if s[0] == x then Some(0)
    else match IndexIn(s[1..], x)
      case None => None
      case Some(i) =>
        assert s[..i + 1] == [s[0]] + s[1..][..i];
        Some(i + 1)
  }

  /** The five bits of a byte of the address, if its character is in the set. */
  function Digit(b: u8): (r: Option<nat>)
    ensures r.Some? ==> r.value < 32
  {
    CharsetSize();
    IndexIn(CHARSET, b as char)
  }

  predicate InCharset(s: seq<u8>) {
    forall i :: 0 <= i < |s| ==> Digit(s[i]).Some?
  }

  lemma CharsetSize()
    ensures |CHARSET| == 32
  {
  }

  function FiveBits(s: seq<u8>): (d: seq<u5>)
    requires InCharset(s)
    ensures |d| == |s|
  {
    seq(|s|, i requires 0 <= i < |s| => Digit(s[i]).value)
  }

  /** A byte inside an encoded character; cutting a string before one panics. */
  predicate Continues(b: u8) {
    0x80 <= b < 0xC0
  }

  const PANIC: string := "panic: the checksum starts inside a character"

  /** The bytes between the first colon and the eight-byte checksum. */
  function DataPart(addr: seq<u8>): Result<seq<u8>> {
    match IndexIn(addr, 0x3A)
    case None => Err("missing ':'")
    case Some(colon) =>
      var rest := addr[colon + 1..];
      if |rest| < 9 then Err("address too short")
      else if Continues(rest[|rest| - 8]) then Err(PANIC)
      else Ok(rest[..|rest| - 8])
  }

  /** Over the UTF-8 bytes of the address: decoding succeeds exactly on a data part over the
      character set that holds at least 33 complete bytes, and returns the first as the version
      and the next 32 as the script. */
  method DecodeAddress(addr: seq<u8>) returns (r: Result<(u16, Digest)>)
    ensures DataPart(addr).Err? ==> r == Err(DataPart(addr).error)
    ensures DataPart(addr).Ok? && !InCharset(DataPart(addr).value) ==> r == Err("invalid bech32 character")
    ensures DataPart(addr).Ok? && InCharset(DataPart(addr).value) ==>
      var bytes := Regrouped(FiveBits(DataPart(addr).value));
      r == if |bytes| < 33 then Err("expected at least 33 decoded bytes") else Ok((bytes[0], bytes[1..33]))
  {
    hide Digit, Regrouped, InCharset, FiveBits;
    var part := DataPart(addr);
    if part.Err? { return Err(part.error); }
    var data: seq<u5> := [];
    assert part.value[..0] == [];
    EmptySpelling();
    for i := 0 to |part.value|
      invariant InCharset(part.value[..i]) && data == FiveBits(part.value[..i])
    {
      var d := Digit(part.value[i]);
      CharsetPrefix(part.value, i);
      if d.None? { return Err("invalid bech32 character"); }
      data := data + [d.value];
    }
    assert part.value[..|part.value|] == part.value;
    var bytes := Regroup(data);
    if |bytes| < 33 { return Err("expected at least 33 decoded bytes"); }
    r := Ok((bytes[0], bytes[1..33]));
  }

  lemma EmptySpelling()
    ensures InCharset([]) && FiveBits([]) == []
  {
  }

  lemma CharsetPrefix(s: seq<u8>, i: nat)
    requires i < |s| && InCharset(s[..i])
    ensures var d := Digit(s[i]);
      if d.None? then !InCharset(s)
      else InCharset(s[..i + 1]) && FiveBits(s[..i + 1]) == FiveBits(s[..i]) + [d.value]
  {
    hide Digit;
    assert s[..i + 1] == s[..i] + [s[i]];
  }

  // ---- the round trip ----

  /** The character of five bits. */
  function Letter(d: u5): u8 {
    CharsetSize();
    CharsetIsAscii(d);
    CHARSET[d] as int
  }

  lemma CharsetIsAscii(d: u5)
    ensures |CHARSET| == 32 && CHARSET[d] as int < 0x80
  {
  }

  lemma LowLettersDiffer(c: u5, d: u5)
    requires |CHARSET| == 32 && c < 12 && c < d
    ensures CHARSET[c] != CHARSET[d]
  {
  }

  lemma HighLettersDiffer(c: u5, d: u5)
    requires |CHARSET| == 32 && 12 <= c < d
    ensures CHARSET[c] != CHARSET[d]
  {
  }

  lemma LettersDiffer(c: u5, d: u5)
    requires |CHARSET| == 32 && c < d
    ensures CHARSET[c] != CHARSET[d]
  {
    hide CHARSET;
    if c < 12 { LowLettersDiffer(c, d); } else { HighLettersDiffer(c, d); }
  }

  lemma LetterIsDigit(d: u5)
    ensures Digit(Letter(d)) == Some(d)
  {
    CharsetSize();
    CharsetIsAscii(d);
    var i := IndexIn(CHARSET, CHARSET[d]);
    assert CHARSET[d] in CHARSET;
    hide CHARSET;
    if i.value < d {
      LettersDiffer(i.value, d);
    }
  }

  /** An address: prefix, colon, version and script spelled in five-bit characters, checksum. */
  function Encoded(prefix: seq<u8>, version: u8, script: Digest, check: seq<u8>): seq<u8> {
    var d := Spelled([version] + script);
    prefix + ([0x3A] + (seq(|d|, i requires 0 <= i < |d| => Letter(d[i])) + check))
  }

  lemma {:induction false} FirstColon(prefix: seq<u8>, rest: seq<u8>)
    requires 0x3A !in prefix
    ensures IndexIn(prefix + ([0x3A] + rest), 0x3A) == Some(|prefix|)
    decreases |prefix|
  {
    if prefix == [] {
      assert prefix + ([0x3A] + rest) == [0x3A] + rest;
    } else {
      assert (prefix + ([0x3A] + rest))[1..] == prefix[1..] + ([0x3A] + rest);
      FirstColon(prefix[1..], rest);
    }
  }

  lemma SpelledLetters(d: seq<u5>)
    ensures var s := seq(|d|, i requires 0 <= i < |d| => Letter(d[i])); InCharset(s) && FiveBits(s) == d
  {
    hide Digit, Letter;
    var s := seq(|d|, i requires 0 <= i < |d| => Letter(d[i]));
    forall i | 0 <= i < |d| ensures Digit(s[i]) == Some(d[i]) {
      LetterIsDigit(d[i]);
    }
  }

  /** Decoding an address gives back the version and the script it was made of, whatever the
      prefix before the colon and whatever the checksum, which is not looked at. */
  lemma DecodeInvertsEncode(prefix: seq<u8>, version: u8, script: Digest, check: seq<u8>)
    requires 0x3A !in prefix && |check| == 8 && !Continues(check[0])
    ensures var part := DataPart(Encoded(prefix, version, script, check));
      part.Ok? && InCharset(part.value) && Regrouped(FiveBits(part.value)) == [version] + script
  {
    hide IndexIn, Spelled, InCharset, FiveBits, Letter, Regrouped;
    var d := Spelled([version] + script);
    var data := seq(|d|, i requires 0 <= i < |d| => Letter(d[i]));
    FirstColon(prefix, data + check);
    assert Encoded(prefix, version, script, check)[|prefix| + 1..] == data + check;
    assert (data + check)[..|data|] == data && (data + check)[|data|] == check[0];
    SpelledLetters(d);
    RegroupInvertsSpelling([version] + script);
  }
}
