/** The header serialisation that both block hashes are taken over, and the block that the
    possession miner submits. */
module Header {
  import opened Digits
  import opened Words
  import opened Merkle
  import opened Pom
  import opened Order
  import opened Possession
  import opened Weights
  import opened Gpu
  import opened Miner
  import opened Target
  import opened Wrappers

  const H3_ACTIVATION: u64 := 43_450_000

  type i64 = x: int | -0x8000_0000_0000_0000 <= x < 0x8000_0000_0000_0000

  /** A header as the node sends it: hashes and blue work are hexadecimal strings. */
  datatype RpcHeader = RpcHeader(
    version: u32,
    parents: seq<seq<string>>,
    hashMerkleRoot: string,
    acceptedIdMerkleRoot: string,
    utxoCommitment: string,
    timestamp: i64,
    bits: u32,
    nonce: u64,
    daaScore: u64,
    blueScore: u64,
    blueWork: string,
    pruningPoint: string,
    finalState: u64)

  /** The field values of a header. */
  datatype Fields = Fields(
    version: u16,
    parents: seq<seq<Digest>>,
    hashMerkleRoot: Digest,
    acceptedIdMerkleRoot: Digest,
    utxoCommitment: Digest,
    timestamp: i64,
    bits: u32,
    nonce: u64,
    daaScore: u64,
    blueScore: u64,
    blueWork: seq<u8>,
    pruningPoint: Digest,
    finalState: u64)

  // ---- hexadecimal ----

  function Nibble(c: char): Option<nat> {
    if 'A' <= c <= 'F' then Some((c - 'A') as nat + 10)
    else if 'a' <= c <= 'f' then Some((c - 'a') as nat + 10)
    else if '0' <= c <= '9' then Some((c - '0') as nat)
    else None
  }

  predicate IsHex(s: string) {
    |s| % 2 == 0 && forall i :: 0 <= i < |s| ==> Nibble(s[i]).Some?
  }

  function HexByte(hi: char, lo: char): u8
    requires Nibble(hi).Some? && Nibble(lo).Some?
  {
    Nibble(hi).value * 16 + Nibble(lo).value
  }

  function HexBytes(s: string): (b: seq<u8>)
    requires IsHex(s)
    ensures |b| == |s| / 2
  {
    seq(|s| / 2, i requires 0 <= i < |s| / 2 => HexByte(s[2 * i], s[2 * i + 1]))
  }

  /** `decode_to_slice` into a slice of `n` bytes. */
  method DecodeToSlice(data: string, n: nat) returns (r: Option<seq<u8>>)
    ensures r.Some? <==> IsHex(data) && |data| == 2 * n
    ensures r.Some? ==> r.value == HexBytes(data)
  {
    if |data| % 2 != 0 || |data| / 2 != n { return None; }
    var out: seq<u8> := [];
    for i := 0 to n
      invariant |out| == i && forall j :: 0 <= j < 2 * i ==> Nibble(data[j]).Some?
      invariant forall j :: 0 <= j < i ==> out[j] == HexByte(data[2 * j], data[2 * j + 1])
    {
      var hi, lo := Nibble(data[2 * i]), Nibble(data[2 * i + 1]);
      if hi.None? || lo.None? { return None; }
      out := out + [HexByte(data[2 * i], data[2 * i + 1])];
    }
    r := Some(out);
  }

  /** Blue work may have an odd number of digits; it is padded with a leading zero. */
  function Padded(s: string): string {
    if |s| % 2 == 0 then s else "0" + s
  }

  predicate IsHash(s: string) {
    IsHex(s) && |s| == 64
  }

  /** The headers the serialiser does not panic on. */
  predicate Serialisable(h: RpcHeader) {
    && h.version < 0x1_0000
    && (forall i, j :: 0 <= i < |h.parents| && 0 <= j < |h.parents[i]| ==> IsHash(h.parents[i][j]))
    && IsHash(h.hashMerkleRoot) && IsHash(h.acceptedIdMerkleRoot) && IsHash(h.utxoCommitment) && IsHash(h.pruningPoint)
    && IsHex(Padded(h.blueWork)) && |Padded(h.blueWork)| <= 64
  }

  function HashOf(s: string): Digest
    requires IsHash(s)
  {
    HexBytes(s)
  }

  function LevelOf(hs: seq<string>): (l: seq<Digest>)
    requires forall j :: 0 <= j < |hs| ==> IsHash(hs[j])
    ensures |l| == |hs|
  {
    seq(|hs|, j requires 0 <= j < |hs| => HashOf(hs[j]))
  }

  function FieldsOf(h: RpcHeader): Fields
    requires Serialisable(h)
  {
    Fields(h.version,
      seq(|h.parents|, i requires 0 <= i < |h.parents| => LevelOf(h.parents[i])),
      HashOf(h.hashMerkleRoot), HashOf(h.acceptedIdMerkleRoot), HashOf(h.utxoCommitment),
      h.timestamp, h.bits, h.nonce, h.daaScore, h.blueScore,
      HexBytes(Padded(h.blueWork)), HashOf(h.pruningPoint), h.finalState)
  }

  // ---- the byte string ----

  function Le(x: nat, n: nat): (b: seq<u8>)
    ensures |b| == n
  {
    ToDigits(256, x, n)
  }

  function Concat(level: seq<Digest>): seq<u8> {
    if level == [] then [] else Concat(level[..|level| - 1]) + level[|level| - 1]
  }

  function Level(l: seq<Digest>): seq<u8> {
    Le(|l|, 8) + Concat(l)
  }

  function Levels(parents: seq<seq<Digest>>): seq<u8> {
    if parents == [] then [] else Level(parents[0]) + Levels(parents[1..])
  }

  lemma {:induction false} LevelsSnoc(parents: seq<seq<Digest>>, l: seq<Digest>)
    ensures Levels(parents + [l]) == Levels(parents) + Level(l)
    decreases |parents|
  {
    hide Level;
    if parents == [] {
      assert ([] + [l])[1..] == [];
    } else {
      assert (parents + [l])[1..] == parents[1..] + [l];
      LevelsSnoc(parents[1..], l);
    }
  }

  function Unsigned(t: i64): u64 {
    if t < 0 then t + WORD else t
  }

  /** What the pre-proof-of-work form and the full form each hash. */
  function Bytes(f: Fields, prePow: bool): seq<u8> {
    Le(f.version, 2) + (Le(|f.parents|, 8) + (Levels(f.parents) + Tail(f, prePow)))
  }

  function Tail(f: Fields, prePow: bool): seq<u8> {
    f.hashMerkleRoot + (f.acceptedIdMerkleRoot + (f.utxoCommitment + Numbers(f, prePow)))
  }

  function Numbers(f: Fields, prePow: bool): seq<u8> {
    Le(if prePow then 0 else Unsigned(f.timestamp), 8) + (Le(f.bits, 4) + (Le(if prePow then 0 else f.nonce, 8)
    + (Le(f.daaScore, 8) + (Le(f.blueScore, 8) + End(f, prePow)))))
  }

  function End(f: Fields, prePow: bool): seq<u8> {
    Le(|f.blueWork|, 8) + (f.blueWork + (f.pruningPoint + Final(f, prePow)))
  }

  function Final(f: Fields, prePow: bool): seq<u8> {
    if !prePow && f.daaScore >= H3_ACTIVATION then Le(f.finalState, 8) else []
  }

  method WriteHash(out: seq<u8>, hex: string) returns (out': seq<u8>)
    requires IsHash(hex)
    ensures out' == out + HashOf(hex)
  {
    var hash := DecodeToSlice(hex, 32);
    out' := out + hash.value;
  }

  method WriteLevel(out: seq<u8>, hs: seq<string>) returns (out': seq<u8>)
    requires forall j :: 0 <= j < |hs| ==> IsHash(hs[j])
    ensures out' == out + Level(LevelOf(hs))
  {
    hide Le, HashOf;
    out' := out + Le(|hs|, 8);
    ghost var level := LevelOf(hs);
    for j := 0 to |hs|
      invariant out' == out + (Le(|hs|, 8) + Concat(level[..j]))
    {
      out' := WriteHash(out', hs[j]);
      assert level[..j + 1][..j] == level[..j];
    }
    assert level[..|hs|] == level;
  }

  method WriteParents(out: seq<u8>, parents: seq<seq<string>>, ghost levels: seq<seq<Digest>>) returns (out': seq<u8>)
    requires forall i, j :: 0 <= i < |parents| && 0 <= j < |parents[i]| ==> IsHash(parents[i][j])
    requires |levels| == |parents| && forall i :: 0 <= i < |parents| ==> levels[i] == LevelOf(parents[i])
    ensures out' == out + Levels(levels)
  {
    hide LevelOf, Level;
    out' := out;
    for i := 0 to |parents|
      invariant out' == out + Levels(levels[..i])
    {
      out' := WriteLevel(out', parents[i]);
      assert levels[..i + 1] == levels[..i] + [levels[i]];
      LevelsSnoc(levels[..i], levels[i]);
    }
    assert levels[..|parents|] == levels;
  }

  method WriteBlueWork(out: seq<u8>, s: string) returns (out': seq<u8>)
    requires IsHex(Padded(s)) && |Padded(s)| <= 64
    ensures out' == out + (Le(|HexBytes(Padded(s))|, 8) + HexBytes(Padded(s)))
  {
    hide Le;
    var blueLen := (|s| + 1) / 2;
    var blue := DecodeToSlice(if |s| % 2 == 0 then s else "0" + s, blueLen);
    out' := out + Le(blueLen, 8) + blue.value;
  }

  method WriteEnd(out: seq<u8>, h: RpcHeader, prePow: bool) returns (out': seq<u8>)
    requires Serialisable(h)
    ensures out' == out + End(FieldsOf(h), prePow)
  {
    hide Le, HashOf, LevelOf, HexBytes, Padded;
    out' := WriteBlueWork(out, h.blueWork);
    out' := WriteHash(out', h.pruningPoint);
    if !prePow && h.daaScore >= H3_ACTIVATION {
      out' := out' + Le(h.finalState, 8);
    }
  }

  method WriteNumbersAndEnd(out: seq<u8>, h: RpcHeader, prePow: bool) returns (out': seq<u8>)
    requires Serialisable(h)
    ensures out' == out + Numbers(FieldsOf(h), prePow)
  {
    hide Le, HashOf, LevelOf, End, HexBytes;
    var nonce, timestamp := if prePow then 0 else h.nonce, if prePow then 0 else Unsigned(h.timestamp);
    out' := out + Le(timestamp, 8) + Le(h.bits, 4) + Le(nonce, 8) + Le(h.daaScore, 8) + Le(h.blueScore, 8);
    out' := WriteEnd(out', h, prePow);
  }

  /** The serialiser feeds the hasher exactly these bytes. */
  method SerializeHeader(h: RpcHeader, prePow: bool) returns (out: seq<u8>)
    requires Serialisable(h)
    ensures out == Bytes(FieldsOf(h), prePow)
  {
    hide Le, HashOf, LevelOf, Levels, HexBytes, Numbers;
    out := Le(h.version, 2) + Le(|h.parents|, 8);
    out := WriteParents(out, h.parents, FieldsOf(h).parents);
    out := WriteHash(out, h.hashMerkleRoot);
    out := WriteHash(out, h.acceptedIdMerkleRoot);
    out := WriteHash(out, h.utxoCommitment);
    out := WriteNumbersAndEnd(out, h, prePow);
  }

  // ---- the encoding is injective ----

  /** Lengths that fit their 64-bit prefix, as every length in memory does. */
  predicate Sized(f: Fields) {
    |f.parents| < WORD && |f.blueWork| < WORD && forall i :: 0 <= i < |f.parents| ==> |f.parents[i]| < WORD
  }

  /** The field values a form commits to; the others are cleared. */
  function Committed(f: Fields, prePow: bool): Fields {
    if prePow then f.(timestamp := 0, nonce := 0, finalState := 0)
    else if f.daaScore < H3_ACTIVATION then f.(finalState := 0)
    else f
  }

  lemma Peel<T>(a: seq<T>, b: seq<T>, r: seq<T>, s: seq<T>)
    requires |a| == |b| && a + r == b + s
    ensures a == b && r == s
  {
    assert a == (a + r)[..|a|] && b == (b + s)[..|b|];
    assert r == (a + r)[|a|..] && s == (b + s)[|b|..];
  }

  lemma LeInjective(x: nat, y: nat, n: nat)
    requires Le(x, n) == Le(y, n) && x < Pow(256, n) && y < Pow(256, n)
    ensures x == y
  {
    ValueToDigits(256, x, n);
    ValueToDigits(256, y, n);
  }

  lemma PeelNumber(x: nat, y: nat, n: nat, r: seq<u8>, s: seq<u8>)
    requires Le(x, n) + r == Le(y, n) + s && x < Pow(256, n) && y < Pow(256, n)
    ensures x == y && r == s
  {
    hide Pow, Le;
    Peel(Le(x, n), Le(y, n), r, s);
    LeInjective(x, y, n);
  }

  lemma {:induction false} ConcatSplits(a: seq<Digest>, b: seq<Digest>)
    requires |a| == |b| && Concat(a) == Concat(b)
    ensures a == b
  {
    if a == [] {
    } else {
      var l := |a| - 1;
      ConcatLength(a[..l]);
      ConcatLength(b[..l]);
      Peel(Concat(a[..l]), Concat(b[..l]), a[l], b[l]);
      ConcatSplits(a[..l], b[..l]);
      assert a == a[..l] + [a[l]] && b == b[..l] + [b[l]];
    }
  }

  lemma {:induction false} ConcatLength(a: seq<Digest>)
    ensures |Concat(a)| == 32 * |a|
  {
    if a == [] {
    } else {
      ConcatLength(a[..|a| - 1]);
    }
  }

  lemma PeelLevel(a: seq<Digest>, b: seq<Digest>, r: seq<u8>, s: seq<u8>)
    requires |a| < WORD && |b| < WORD && Level(a) + r == Level(b) + s
    ensures a == b && r == s
  {
    hide Le;
    WordPowers();
    assert Le(|a|, 8) + (Concat(a) + r) == Level(a) + r == Level(b) + s == Le(|b|, 8) + (Concat(b) + s);
    PeelNumber(|a|, |b|, 8, Concat(a) + r, Concat(b) + s);
    ConcatLength(a);
    ConcatLength(b);
    Peel(Concat(a), Concat(b), r, s);
    ConcatSplits(a, b);
  }

  lemma {:induction false} PeelLevels(p: seq<seq<Digest>>, q: seq<seq<Digest>>, r: seq<u8>, s: seq<u8>)
    requires |p| == |q| && Levels(p) + r == Levels(q) + s
    requires forall i :: 0 <= i < |p| ==> |p[i]| < WORD && |q[i]| < WORD
    ensures p == q && r == s
    decreases |p|
  {
    hide Level;
    if p == [] {
      assert Levels(p) + r == r && Levels(q) + s == s;
    } else {
      assert Levels(p) + r == Level(p[0]) + (Levels(p[1..]) + r);
      assert Levels(q) + s == Level(q[0]) + (Levels(q[1..]) + s);
      PeelLevel(p[0], q[0], Levels(p[1..]) + r, Levels(q[1..]) + s);
      PeelLevels(p[1..], q[1..], r, s);
      assert p == [p[0]] + p[1..] && q == [q[0]] + q[1..];
    }
  }

  lemma PeelNumbers(f: Fields, g: Fields, prePow: bool)
    requires Numbers(f, prePow) == Numbers(g, prePow)
    ensures !prePow ==> f.timestamp == g.timestamp && f.nonce == g.nonce
    ensures f.bits == g.bits && f.daaScore == g.daaScore && f.blueScore == g.blueScore
    ensures End(f, prePow) == End(g, prePow)
  {
    hide Le, End, Pow;
    WordPowers();
    assert Pow(256, 4) == 0x1_0000_0000 by { PowAdd(256, 2, 2); Small(); }
    var tf, tg := if prePow then 0 else Unsigned(f.timestamp), if prePow then 0 else Unsigned(g.timestamp);
    var nf, ng := if prePow then 0 else f.nonce, if prePow then 0 else g.nonce;
    var ef, eg := End(f, prePow), End(g, prePow);
    var bf, bg := Le(f.blueScore, 8) + ef, Le(g.blueScore, 8) + eg;
    var df, dg := Le(f.daaScore, 8) + bf, Le(g.daaScore, 8) + bg;
    var cf, cg := Le(nf, 8) + df, Le(ng, 8) + dg;
    PeelNumber(tf, tg, 8, Le(f.bits, 4) + cf, Le(g.bits, 4) + cg);
    PeelNumber(f.bits, g.bits, 4, cf, cg);
    PeelNumber(nf, ng, 8, df, dg);
    PeelNumber(f.daaScore, g.daaScore, 8, bf, bg);
    PeelNumber(f.blueScore, g.blueScore, 8, ef, eg);
  }

  lemma Small()
    ensures Pow(256, 2) == 0x1_0000
  {
  }

  lemma PeelEnd(f: Fields, g: Fields, prePow: bool)
    requires |f.blueWork| < WORD && |g.blueWork| < WORD && f.daaScore == g.daaScore && End(f, prePow) == End(g, prePow)
    ensures f.blueWork == g.blueWork && f.pruningPoint == g.pruningPoint
    ensures !prePow && f.daaScore >= H3_ACTIVATION ==> f.finalState == g.finalState
  {
    hide Le, Pow;
    WordPowers();
    var pf, pg := f.pruningPoint + Final(f, prePow), g.pruningPoint + Final(g, prePow);
    PeelNumber(|f.blueWork|, |g.blueWork|, 8, f.blueWork + pf, g.blueWork + pg);
    Peel(f.blueWork, g.blueWork, pf, pg);
    Peel(f.pruningPoint, g.pruningPoint, Final(f, prePow), Final(g, prePow));
    if !prePow && f.daaScore >= H3_ACTIVATION {
      LeInjective(f.finalState, g.finalState, 8);
    }
  }

  /** Two headers serialise alike exactly when they agree on every field the form commits to:
      all but nonce, timestamp and final state before the proof of work; all, the final
      state only from H3 on, in the full form. */
  lemma SerialisationIsInjective(f: Fields, g: Fields, prePow: bool)
    requires Sized(f) && Sized(g)
    ensures Bytes(f, prePow) == Bytes(g, prePow) <==> Committed(f, prePow) == Committed(g, prePow)
  {
    if Bytes(f, prePow) == Bytes(g, prePow) {
      hide Le, Pow, Levels, Numbers, End, Final;
      WordPowers();
      Small();
      var rf, rg := Levels(f.parents) + Tail(f, prePow), Levels(g.parents) + Tail(g, prePow);
      PeelNumber(f.version, g.version, 2, Le(|f.parents|, 8) + rf, Le(|g.parents|, 8) + rg);
      PeelNumber(|f.parents|, |g.parents|, 8, rf, rg);
      PeelLevels(f.parents, g.parents, Tail(f, prePow), Tail(g, prePow));
      PeelTail(f, g, prePow);
      PeelNumbers(f, g, prePow);
      PeelEnd(f, g, prePow);
    } else {
      CommittedDecides(f, prePow);
      CommittedDecides(g, prePow);
    }
  }

  lemma PeelTail(f: Fields, g: Fields, prePow: bool)
    requires Tail(f, prePow) == Tail(g, prePow)
    ensures f.hashMerkleRoot == g.hashMerkleRoot && f.acceptedIdMerkleRoot == g.acceptedIdMerkleRoot
    ensures f.utxoCommitment == g.utxoCommitment && Numbers(f, prePow) == Numbers(g, prePow)
  {
    hide Numbers;
    var uf, ug := f.utxoCommitment + Numbers(f, prePow), g.utxoCommitment + Numbers(g, prePow);
    Peel(f.hashMerkleRoot, g.hashMerkleRoot, f.acceptedIdMerkleRoot + uf, g.acceptedIdMerkleRoot + ug);
    Peel(f.acceptedIdMerkleRoot, g.acceptedIdMerkleRoot, uf, ug);
    Peel(f.utxoCommitment, g.utxoCommitment, Numbers(f, prePow), Numbers(g, prePow));
  }

  lemma CommittedDecides(f: Fields, prePow: bool)
    ensures Bytes(Committed(f, prePow), prePow) == Bytes(f, prePow)
  {
    hide Le, Levels;
  }

  // ---- the submitted block ----

  /** The header hash function; nothing is assumed about it. */
  type HeaderHash = seq<u8> -> Digest

  datatype FullBlock = FullBlock(header: Option<RpcHeader>, proof: Option<PomProof>)

  /** A share template of a pool: the block itself stays with the pool. */
  datatype PartialBlock = PartialBlock(
    id: string,
    headerHash: Quad,
    timestamp: u64,
    daaScore: u64,
    nonce: u64,
    target: Quad,
    nonceMask: u64,
    nonceFixed: u64,
    hash: Option<string>,
    proof: Option<PomProof>)

  datatype Work = Full(block: FullBlock) | Partial(share: PartialBlock)

  function PrePowHash(hash: HeaderHash, h: RpcHeader): Digest
    requires Serialisable(h)
  {
    hash(Bytes(FieldsOf(h), true))
  }

  /** The target bytes of a header's compact bits. */
  function TargetOf(bits: u32): Digest {
    ToDigits(256, CompactNumber(bits), 32)
  }

  /** What a proof for a header is about, read off the header alone. */
  function JobOf(hash: HeaderHash, h: RpcHeader, k: u32, t: nat): Job
    requires Serialisable(h)
  {
    Job(PrePowHash(hash, h), Unsigned(h.timestamp), TargetOf(h.bits), k, t, h.daaScore >= H3_ACTIVATION)
  }

  /** The serialiser does not panic on the work's header, if it has one. */
  predicate WorkSerialisable(w: Work) {
    w.Full? && w.block.header.Some? ==> Serialisable(w.block.header.value)
  }

  predicate HasJob(w: Work) {
    (w.Full? ==> w.block.header.Some?) && WorkSerialisable(w)
  }

  /** What a proof for some work is about: read off the header, or as the pool says. */
  function JobOfWork(hash: HeaderHash, w: Work, k: u32, t: nat): Job
    requires HasJob(w)
  {
    match w
    case Full(block) => JobOf(hash, block.header.value, k, t)
    case Partial(p) => Job(ToBytes(p.headerHash), p.timestamp, ToBytes(p.target), k, t, p.daaScore >= H3_ACTIVATION)
  }

  /** The 72 bytes that the miner keeps: hash, time, zero padding. */
  function PowHeader(pph: Digest, time: u64): (b: seq<u8>)
    ensures |b| == 72
  {
    pph + ToLe8(time) + seq(32, _ => 0)
  }

  lemma PowHeaderParts(pph: Digest, time: u64)
    ensures PowHeader(pph, time)[0..32] == pph && FromLe8(PowHeader(pph, time)[32..40]) == time
  {
    assert PowHeader(pph, time)[32..40] == ToLe8(time);
    Le8RoundTrip(time);
  }

  /** The mining state made from some work. */
  datatype Template = Template(
    work: Work,
    powHeader: seq<u8>,
    target: Quad,
    nonceMask: u64,
    nonceFixed: u64,
    daaScore: u64)

  /** The state holds exactly what a proof for its work is about. */
  ghost predicate TemplateOf(hash: HeaderHash, s: Template, k: u32, t: nat) {
    && HasJob(s.work)
    && var job := JobOfWork(hash, s.work, k, t);
    && s.powHeader == PowHeader(job.pph, job.time)
    && ToBytes(s.target) == job.target
    && (s.daaScore >= H3_ACTIVATION <==> job.h3)
  }

  /** Fails exactly on a full block without a header. */
  method NewTemplate(hash: HeaderHash, work: Work, ghost k: u32, ghost t: nat) returns (r: Result<Template>)
    requires WorkSerialisable(work)
    ensures r.Ok? <==> HasJob(work)
    ensures r.Ok? ==> TemplateOf(hash, r.value, k, t) && r.value.work == work
    ensures r.Ok? && work.Full? ==> r.value.nonceMask == WORD - 1 && r.value.nonceFixed == 0
    ensures r.Ok? && work.Partial? ==>
      r.value.nonceMask == work.share.nonceMask && r.value.nonceFixed == work.share.nonceFixed
  {
    hide Serialisable, FieldsOf, Bytes, CompactNumber, ToBytes, TargetOf, Value, ToLe8;
    match work
    case Full(block) =>
      if block.header.None? { return Err("Header is missing"); }
      var header := block.header.value;
      var target := FromCompact(header.bits);
      TargetBytes(target, header.bits);
      var bytes := SerializeHeader(header, true);
      r := Ok(Template(work, PowHeader(hash(bytes), Unsigned(header.timestamp)), target, WORD - 1, 0, header.daaScore));
    case Partial(p) =>
      var powHeader := PowHeader(ToBytes(p.headerHash), p.timestamp);
      r := Ok(Template(work, powHeader, p.target, p.nonceMask, p.nonceFixed, p.daaScore));
  }

  lemma TargetBytes(q: Quad, bits: u32)
    requires Value(WORD, q) == CompactNumber(bits)
    ensures ToBytes(q) == TargetOf(bits)
  {
    hide CompactNumber;
    NumOfWords(q);
    ToDigitsValue(256, ToBytes(q));
  }

  /** Nonce and final state do not enter the pre-proof-of-work hash. */
  lemma SolvingKeepsJob(hash: HeaderHash, h: RpcHeader, nonce: u64, final: u64, k: u32, t: nat)
    requires Serialisable(h)
    ensures Serialisable(h.(nonce := nonce, finalState := final))
    ensures JobOf(hash, h.(nonce := nonce, finalState := final), k, t) == JobOf(hash, h, k, t)
  {
    hide HashOf, HexBytes, LevelOf, Bytes, TargetOf, Padded, IsHash;
    var h' := h.(nonce := nonce, finalState := final);
    CommittedDecides(FieldsOf(h), true);
    CommittedDecides(FieldsOf(h'), true);
    assert Committed(FieldsOf(h), true) == Committed(FieldsOf(h'), true);
  }

  /** `w'` is `w` solved: nonce and proof are filled in, and the final state from H3 on. */
  predicate Solves(w: Work, w': Work, nonce: u64, p: PomProof)
    requires HasJob(w)
  {
    match w
    case Full(block) =>
      && w'.Full? && w'.block.proof == Some(p) && w'.block.header.Some?
      && var h, h' := block.header.value, w'.block.header.value;
         h' == h.(nonce := nonce, finalState := if h.daaScore >= H3_ACTIVATION then p.finalState else h.finalState)
    case Partial(share) => w' == Partial(share.(nonce := nonce, proof := Some(p)))
  }

  lemma SolvedKeepsJob(hash: HeaderHash, w: Work, w': Work, nonce: u64, p: PomProof, k: u32, t: nat)
    requires HasJob(w) && Solves(w, w', nonce, p)
    ensures HasJob(w') && JobOfWork(hash, w', k, t) == JobOfWork(hash, w, k, t)
  {
    hide Serialisable, FieldsOf, PrePowHash, TargetOf, ToBytes;
    if w.Full? {
      SolvingKeepsJob(hash, w.block.header.value, nonce, w'.block.header.value.finalState, k, t);
    }
  }

  // Fills in nonce, proof and final state.
  method Solve(w: Work, nonce: u64, p: PomProof) returns (w': Work)
    requires HasJob(w)
    ensures Solves(w, w', nonce, p)
  {
    hide Serialisable;
    match w
    case Full(block) =>
      var header := block.header.value.(nonce := nonce);
      if header.daaScore >= H3_ACTIVATION {
        header := header.(finalState := p.finalState);
      }
      w' := Full(FullBlock(Some(header), Some(p)));
    case Partial(share) =>
      w' := Partial(share.(nonce := nonce, proof := Some(p)));
  }

  function ProofIn(w: Work): Option<PomProof> {
    if w.Full? then w.block.proof else w.share.proof
  }

  /** A nonce yields solved work exactly when the host accepts it, for full blocks and pool
      shares alike.  The work differs from the template's only in nonce, proof and, from H3 on,
      final state; recomputing the job from the solved work gives the same job, and the attached
      proof verifies for it. */
  method GenerateBlockIfPom(blake: Blake, hash: HeaderHash, s: Template, nonce: u64, index: WeightIndex, tier: u8,
                            k: u32, t: nat, ghost ts: seq<Tensor>)
    returns (r: Option<Work>)
    requires TemplateOf(hash, s, k, t) && IndexOf(blake, index, ts) && k > 0
    ensures r.Some? <==> Wins(Chunks(index.gguf, ts), JobOfWork(hash, s.work, k, t), nonce)
    ensures r.Some? ==> ProofIn(r.value).Some? && HasJob(r.value)
    ensures r.Some? ==> JobOfWork(hash, r.value, k, t) == JobOfWork(hash, s.work, k, t)
    ensures r.Some? ==>
      var p, job := ProofIn(r.value).value, JobOfWork(hash, r.value, k, t);
      && Solves(s.work, r.value, nonce, p) && p.tier == tier
      && Accepts(blake, job, nonce, BlockSeed(job.pph, job.time, nonce, job.h3), p, index.nChunks, index.rt)
  {
    hide Walk, Chunks, PowValue, BlockSeed, LeLeq, Accepts, HasJob, JobOfWork, Solves, ToBytes, PowHeader;
    hide ToLe8, FromLe8;
    ghost var job0, chunks := JobOfWork(hash, s.work, k, t), Chunks(index.gguf, ts);
    PowHeaderParts(job0.pph, job0.time);
    JobShape(hash, s.work, k, t);
    var pph: Digest := s.powHeader[0..32];
    var time := FromLe8(s.powHeader[32..40]);
    var job := Job(pph, time, ToBytes(s.target), k, t, s.daaScore >= H3_ACTIVATION);
    assert job == job0;
    var seed := BlockSeed(pph, time, nonce, job.h3);
    var final := WalkFinal(blake, index, seed, k, ts);
    var won := LeLeqLoop(PowValue(final, pph, job.h3), job.target);
    if !won { return None; }
    var proof := BuildProofLoop(blake, index, job, tier, nonce, seed, ts);
    Completeness(blake, job, tier, nonce, seed, chunks);
    var solved := Solve(s.work, nonce, proof);
    SolvedKeepsJob(hash, s.work, solved, nonce, proof, k, t);
    SolvedProof(s.work, solved, nonce, proof);
    r := Some(solved);
  }

  lemma SolvedProof(w: Work, w': Work, nonce: u64, p: PomProof)
    requires HasJob(w) && Solves(w, w', nonce, p)
    ensures ProofIn(w') == Some(p)
  {
    hide Serialisable;
  }

  lemma JobShape(hash: HeaderHash, w: Work, k: u32, t: nat)
    requires HasJob(w)
    ensures JobOfWork(hash, w, k, t).k == k && JobOfWork(hash, w, k, t).t == t
  {
    hide Serialisable, PrePowHash, TargetOf, ToBytes;
  }
}
