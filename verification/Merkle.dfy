/** The duplicate-last Merkle tree of the possession proof: root, inclusion path,
    and path check, over an arbitrary 32-byte hash. */
module Merkle {
  import opened Words

  type Digest = d: seq<u8> | |d| == 32 witness seq(32, _ => 0)

  /** The hash function; nothing is assumed about it. */
  type Blake = seq<u8> -> Digest

  function HashPair(blake: Blake, left: Digest, right: Digest): Digest {
    blake(left + right)
  }

  /** The right-hand partner of even position `i`: the node itself at an odd end. */
  function Right(level: seq<Digest>, i: nat): Digest
    requires i < |level|
  {
    if i + 1 < |level| then level[i + 1] else level[i]
  }

  /** The level above `level`. */
  function Up(blake: Blake, level: seq<Digest>): (next: seq<Digest>)
    ensures |next| == (|level| + 1) / 2
  {
    seq((|level| + 1) / 2, q requires 0 <= q < (|level| + 1) / 2 =>
      HashPair(blake, level[2 * q], Right(level, 2 * q)))
  }

  function Root(blake: Blake, level: seq<Digest>): Digest
    requires level != []
    decreases |level|
  {
    if |level| == 1 then level[0] else Root(blake, Up(blake, level))
  }

  function Depth(n: nat): nat
    requires n > 0
  {
    if n == 1 then 0 else 1 + Depth((n + 1) / 2)
  }

  /** Where the sibling of node `i` is read in a level of `count` nodes. */
  function SiblingIndex(i: nat, count: nat): (s: nat)
    requires i < count
    ensures s < count
  {
    var s := if i % 2 == 0 then i + 1 else i - 1;
    if s < count then s else i
  }

  function Sibling(level: seq<Digest>, i: nat): Digest
    requires i < |level|
  {
    level[SiblingIndex(i, |level|)]
  }

  function Path(blake: Blake, level: seq<Digest>, i: nat): (path: seq<Digest>)
    requires i < |level|
    ensures |path| == Depth(|level|)
    decreases |level|
  {
    if |level| == 1 then [] else [Sibling(level, i)] + Path(blake, Up(blake, level), i / 2)
  }

  function Step(blake: Blake, acc: Digest, i: nat, sib: Digest): Digest {
    if i % 2 == 0 then HashPair(blake, acc, sib) else HashPair(blake, sib, acc)
  }

  /** The root that `path` claims for `acc` at position `i`. */
  function Fold(blake: Blake, acc: Digest, i: nat, path: seq<Digest>): Digest
    decreases |path|
  {
    if path == [] then acc else Fold(blake, Step(blake, acc, i, path[0]), i / 2, path[1..])
  }

  predicate Verify(blake: Blake, leaf: Digest, i: nat, path: seq<Digest>, root: Digest) {
    Fold(blake, leaf, i, path) == root
  }

  // ---- the three loops of the source ----

  method UpLoop(blake: Blake, level: seq<Digest>) returns (next: seq<Digest>)
    ensures next == Up(blake, level)
  {
    next := [];
    var i := 0;
    while i < |level|
      invariant i == 2 * |next| && i <= |level| + 1
      invariant next == Up(blake, level)[..|next|]
    {
      var r := if i + 1 < |level| then level[i + 1] else level[i];
      next := next + [HashPair(blake, level[i], r)];
      i := i + 2;
    }
  }

  method MerkleRoot(blake: Blake, leaves: seq<Digest>) returns (root: Digest)
    requires leaves != []
    ensures root == Root(blake, leaves)
  {
    var level := leaves;
    while |level| > 1
      invariant level != [] && Root(blake, level) == Root(blake, leaves)
      decreases |level|
    {
      level := UpLoop(blake, level);
    }
    root := level[0];
  }

  method MerkleProof(blake: Blake, leaves: seq<Digest>, index: nat) returns (path: seq<Digest>)
    requires index < |leaves|
    ensures path == Path(blake, leaves, index)
  {
    path := [];
    var level, idx: nat := leaves, index;
    while |level| > 1
      invariant idx < |level| && path + Path(blake, level, idx) == Path(blake, leaves, index)
      decreases |level|
    {
      var s := if idx % 2 == 0 then idx + 1 else idx - 1;
      path := path + [if s < |level| then level[s] else level[idx]];
      idx := idx / 2;
      level := UpLoop(blake, level);
    }
  }

  method VerifyMerkle(blake: Blake, leaf: Digest, index: nat, path: seq<Digest>, root: Digest)
    returns (ok: bool)
    ensures ok <==> Verify(blake, leaf, index, path, root)
  {
    var acc: Digest, idx: nat := leaf, index;
    for j := 0 to |path|
      invariant Fold(blake, acc, idx, path[j..]) == Fold(blake, leaf, index, path)
    {
      assert path[j..][1..] == path[j + 1..];
      acc := if idx % 2 == 0 then HashPair(blake, acc, path[j]) else HashPair(blake, path[j], acc);
      idx := idx / 2;
    }
    ok := acc == root;
  }

  // ---- completeness ----

  /** Every leaf of every tree is proved by its own path, whatever the hash. */
  lemma {:induction false} PathVerifies(blake: Blake, level: seq<Digest>, i: nat)
    requires i < |level|
    ensures Verify(blake, level[i], i, Path(blake, level, i), Root(blake, level))
    decreases |level|
  {
    if |level| == 1 {
    } else {
      var next := Up(blake, level);
      assert Step(blake, level[i], i, Sibling(level, i)) == next[i / 2];
      PathVerifies(blake, next, i / 2);
      assert Path(blake, level, i)[1..] == Path(blake, next, i / 2);
    }
  }

  // ---- soundness ----

  type Bytes = seq<u8>

  /** No two distinct members of `s` share a digest. */
  ghost predicate CollisionFree(blake: Blake, s: iset<Bytes>) {
    forall a, b | a in s && b in s && blake(a) == blake(b) :: a == b
  }

  /** Everything hashed while building the tree above `level`. */
  ghost function TreeInputs(blake: Blake, level: seq<Digest>): iset<Bytes>
    requires level != []
    decreases |level|
  {
    if |level| == 1 then iset{}
    else (iset q | 0 <= q < |Up(blake, level)| :: level[2 * q] + Right(level, 2 * q))
         + TreeInputs(blake, Up(blake, level))
  }

  /** What is hashed to step from `acc` at position `i` to its parent. */
  function Joined(acc: Bytes, i: nat, sib: Bytes): Bytes {
    if i % 2 == 0 then acc + sib else sib + acc
  }

  /** Everything hashed while folding `path`. */
  ghost function PathInputs(blake: Blake, acc: Digest, i: nat, path: seq<Digest>): iset<Bytes>
    decreases |path|
  {
    if path == [] then iset{}
    else iset{Joined(acc, i, path[0])}
         + PathInputs(blake, Step(blake, acc, i, path[0]), i / 2, path[1..])
  }

  lemma SamePair(blake: Blake, s: iset<Bytes>, a: Digest, b: Digest, c: Digest, d: Digest)
    requires CollisionFree(blake, s) && a + b in s && c + d in s
    requires HashPair(blake, a, b) == HashPair(blake, c, d)
    ensures a == c && b == d
  {
    assert a == (a + b)[..32] && c == (c + d)[..32];
    assert b == (a + b)[32..] && d == (c + d)[32..];
  }

  lemma PairHashed(blake: Blake, level: seq<Digest>, q: nat)
    requires |level| > 1 && q < |Up(blake, level)|
    ensures level[2 * q] + Right(level, 2 * q) in TreeInputs(blake, level)
    ensures Up(blake, level)[q] == blake(level[2 * q] + Right(level, 2 * q))
  {
  }

  // What a node of the level above says about the two hashed below it.
  lemma NodeOpens(blake: Blake, s: iset<Bytes>, level: seq<Digest>, acc: Digest, i: nat, sib: Digest, q: nat)
    returns (p: nat)
    requires CollisionFree(blake, s) && |level| > 1 && TreeInputs(blake, level) <= s
    requires Joined(acc, i, sib) in s
    requires q < |Up(blake, level)| && Step(blake, acc, i, sib) == Up(blake, level)[q]
    ensures p < |level| && acc == level[p]
    ensures q == i / 2 && i < |level| ==> p == i
  {
    var l, r := level[2 * q], Right(level, 2 * q);
    PairHashed(blake, level, q);
    if i % 2 == 0 {
      SamePair(blake, s, acc, sib, l, r);
      p := 2 * q;
    } else {
      SamePair(blake, s, sib, acc, l, r);
      p := if 2 * q + 1 == |level| then 2 * q else 2 * q + 1;
    }
  }

  // A path as long as the tree is deep ends at a node of the level; at `i` when `i` is one.
  lemma {:induction false} ExactPath(blake: Blake, s: iset<Bytes>, level: seq<Digest>, acc: Digest, i: nat,
                                     path: seq<Digest>)
    returns (p: nat)
    requires CollisionFree(blake, s) && level != [] && |path| == Depth(|level|)
    requires TreeInputs(blake, level) <= s && PathInputs(blake, acc, i, path) <= s
    requires Verify(blake, acc, i, path, Root(blake, level))
    ensures p < |level| && acc == level[p] && (i < |level| ==> p == i)
    decreases |level|
  {
    if |level| == 1 {
      p := 0;
    } else {
      var q := ExactPath(blake, s, Up(blake, level), Step(blake, acc, i, path[0]), i / 2, path[1..]);
      p := NodeOpens(blake, s, level, acc, i, path[0], q);
    }
  }

  // A path that is too short ends at an inner node.
  lemma {:induction false} ShortPath(blake: Blake, s: iset<Bytes>, level: seq<Digest>, acc: Digest, i: nat,
                                     path: seq<Digest>)
    returns (pair: Bytes)
    requires CollisionFree(blake, s) && level != [] && |path| < Depth(|level|)
    requires TreeInputs(blake, level) <= s && PathInputs(blake, acc, i, path) <= s
    requires Verify(blake, acc, i, path, Root(blake, level))
    ensures pair in s && |pair| == 64 && blake(pair) == acc
    decreases |level|
  {
    var next := Up(blake, level);
    if |path| == Depth(|next|) {
      var q := ExactPath(blake, s, next, acc, i, path);
      pair := level[2 * q] + Right(level, 2 * q);
      PairHashed(blake, level, q);
    } else {
      pair := ShortPath(blake, s, next, acc, i, path);
    }
  }

  // A path that is too long makes some node of the level an inner node.
  lemma {:induction false} LongPath(blake: Blake, s: iset<Bytes>, level: seq<Digest>, acc: Digest, i: nat,
                                    path: seq<Digest>)
    returns (p: nat, pair: Bytes)
    requires CollisionFree(blake, s) && level != [] && |path| > Depth(|level|)
    requires TreeInputs(blake, level) <= s && PathInputs(blake, acc, i, path) <= s
    requires Verify(blake, acc, i, path, Root(blake, level))
    ensures p < |level| && pair in s && |pair| == 64 && blake(pair) == level[p]
    decreases |path|
  {
    var acc' := Step(blake, acc, i, path[0]);
    if |path| - 1 == Depth(|level|) {
      p := ExactPath(blake, s, level, acc', i / 2, path[1..]);
      pair := if i % 2 == 0 then acc + path[0] else path[0] + acc;
    } else {
      p, pair := LongPath(blake, s, level, acc', i / 2, path[1..]);
    }
  }

  /** The leaf level over a list of leaf contents. */
  function Leaves(blake: Blake, xs: seq<Bytes>): (level: seq<Digest>)
    ensures |level| == |xs|
  {
    seq(|xs|, i requires 0 <= i < |xs| => blake(xs[i]))
  }

  /** Everything hashed to commit to the leaf contents `xs`. */
  ghost function CommitInputs(blake: Blake, xs: seq<Bytes>): iset<Bytes>
    requires xs != []
  {
    (iset x | x in xs) + TreeInputs(blake, Leaves(blake, xs))
  }

  /** Everything hashed to check one opening. */
  ghost function OpenInputs(blake: Blake, x: Bytes, i: nat, path: seq<Digest>): iset<Bytes> {
    iset{x} + PathInputs(blake, blake(x), i, path)
  }

  lemma OneNodeInputs(blake: Blake, node: Digest)
    ensures TreeInputs(blake, [node]) == iset{}
  {
  }

  lemma TwoNodeInputs(blake: Blake, level: seq<Digest>, left: Bytes, right: Bytes)
    requires |level| == 2 && left == level[0] && right == level[1]
    ensures TreeInputs(blake, level) == iset{left + right}
  {
    assert |Up(blake, level)| == 1 && Right(level, 0) == level[1];
    PairHashed(blake, level, 0);
    forall x | x in TreeInputs(blake, level) ensures x == left + right {
      assert TreeInputs(blake, Up(blake, level)) == iset{};
      var q :| 0 <= q < 1 && x == level[2 * q] + Right(level, 2 * q);
    }
  }

  lemma ThreeNodeInputs(blake: Blake, level: seq<Digest>, l: Bytes, m: Bytes, r: Bytes)
    requires |level| == 3 && l == level[0] && m == level[1] && r == level[2]
    ensures Up(blake, level) == [blake(l + m), blake(r + r)]
    ensures TreeInputs(blake, level) == iset{l + m, r + r} + TreeInputs(blake, Up(blake, level))
  {
    PairHashed(blake, level, 0);
    PairHashed(blake, level, 1);
    var pairs := iset q | 0 <= q < |Up(blake, level)| :: level[2 * q] + Right(level, 2 * q);
    assert TreeInputs(blake, level) == pairs + TreeInputs(blake, Up(blake, level));
    assert level[2 * 0] + Right(level, 2 * 0) == l + m && level[2 * 1] + Right(level, 2 * 1) == r + r;
    forall x | x in pairs ensures x == l + m || x == r + r {
      var q :| 0 <= q < 2 && x == level[2 * q] + Right(level, 2 * q);
      assert q == 0 || q == 1;
    }
    assert l + m in pairs && r + r in pairs;
  }

  lemma SiblingJoins(level: seq<Digest>, i: nat)
    requires i < |level|
    ensures Joined(level[i], i, Sibling(level, i)) == level[2 * (i / 2)] + Right(level, 2 * (i / 2))
  {
    if i % 2 == 0 {
      assert i == 2 * (i / 2);
    } else {
      assert i == 2 * (i / 2) + 1;
    }
  }

  lemma HonestStep(blake: Blake, level: seq<Digest>, i: nat)
    requires |level| > 1 && i < |level|
    ensures i / 2 < |Up(blake, level)| && Step(blake, level[i], i, Sibling(level, i)) == Up(blake, level)[i / 2]
  {
    SiblingJoins(level, i);
    hide Sibling, Right;
  }

  // Checking a path of the tree hashes nothing that building the tree did not.
  lemma {:induction false} HonestPathInputs(blake: Blake, level: seq<Digest>, i: nat)
    requires i < |level|
    ensures PathInputs(blake, level[i], i, Path(blake, level, i)) <= TreeInputs(blake, level)
    decreases |level|
  {
    if |level| == 1 {
    } else {
      hide Step, Up, Right, Sibling, Joined;
      var next, path := Up(blake, level), Path(blake, level, i);
      HonestStep(blake, level, i);
      SiblingJoins(level, i);
      PairHashed(blake, level, i / 2);
      HonestPathInputs(blake, next, i / 2);
      assert path[0] == Sibling(level, i) && path[1..] == Path(blake, next, i / 2);
    }
  }

  lemma HonestOpenInputs(blake: Blake, xs: seq<Bytes>, i: nat)
    requires i < |xs|
    ensures OpenInputs(blake, xs[i], i, Path(blake, Leaves(blake, xs), i)) <= CommitInputs(blake, xs)
  {
    HonestPathInputs(blake, Leaves(blake, xs), i);
    assert xs[i] in xs;
  }

  lemma LeavesHashed(blake: Blake, s: iset<Bytes>, xs: seq<Bytes>)
    requires xs != [] && CommitInputs(blake, xs) <= s
    ensures TreeInputs(blake, Leaves(blake, xs)) <= s
    ensures forall j :: 0 <= j < |xs| ==> xs[j] in s && xs[j] in xs && Leaves(blake, xs)[j] == blake(xs[j])
  {
  }

  /** Binding: when the leaf contents are not 64 bytes long and no collision occurs among
      the inputs actually hashed, an accepted opening at a position of the tree shows the
      committed content, and its path has exactly the tree's depth.  The check itself
      looks at neither the path length nor the kind of node. */
  lemma OpeningBinds(blake: Blake, s: iset<Bytes>, xs: seq<Bytes>, x: Bytes, i: nat, path: seq<Digest>)
    requires i < |xs| && |x| != 64 && forall y | y in xs :: |y| != 64
    requires CollisionFree(blake, s)
    requires CommitInputs(blake, xs) <= s && OpenInputs(blake, x, i, path) <= s
    requires Verify(blake, blake(x), i, path, Root(blake, Leaves(blake, xs)))
    ensures x == xs[i] && |path| == Depth(|xs|)
  {
    var level := Leaves(blake, xs);
    LeavesHashed(blake, s, xs);
    if |path| < Depth(|level|) {
      var pair := ShortPath(blake, s, level, blake(x), i, path);
      assert false;
    } else if |path| > Depth(|level|) {
      var p, pair := LongPath(blake, s, level, blake(x), i, path);
      assert false;
    } else {
      var p := ExactPath(blake, s, level, blake(x), i, path);
    }
  }
}
