/** What the challenges leave open: a concrete hash under which a proof with any final state
    is accepted because its only false step is not challenged, although nothing collides. */
module UncheckedStep {
  import opened Digits
  import opened Words
  import opened Merkle
  import opened Pom
  import opened Order
  import opened Possession
  import opened Target

  /** Keeps states, chunks, pairs of leaves and pairs of nodes apart by the last byte. */
  function DepthHash(x: Bytes): Digest {
    if |x| == 8 then x + seq(24, _ => 0)
    else if |x| == 32 then seq(32, _ => 1)
    else if |x| == 64 && x[31] == 0 then x[0..8] + x[32..40] + seq(16, _ => 2)
    else if |x| == 64 then seq(32, _ => 3)
    else seq(32, _ => 0)
  }

  /** A state, the chunk, a pair of leaves over states, or the pair below the root. */
  predicate Shape(x: Bytes, chunk: Digest, top: Bytes) {
    || |x| == 8
    || x == chunk
    || x == top
    || (|x| == 64 && x == x[0..8] + seq(24, _ => 0) + x[32..40] + seq(24, _ => 0))
  }

  lemma LastByte(x: Bytes)
    requires |x| == 8 || |x| == 32 || |x| == 64
    ensures DepthHash(x)[31] == if |x| == 8 then 0 else if |x| == 32 then 1 else if x[31] == 0 then 2 else 3
  {
  }

  lemma Determined(x: Bytes)
    requires |x| == 8 || (|x| == 64 && x[31] == 0)
    ensures |x| == 8 ==> x == DepthHash(x)[..8]
    ensures |x| == 64 ==> x[0..8] == DepthHash(x)[..8] && x[32..40] == DepthHash(x)[8..16]
  {
  }

  lemma KeepsApart(a: Bytes, b: Bytes, chunk: Digest, top: Bytes)
    requires |top| == 64 && top[31] != 0 && Shape(a, chunk, top) && Shape(b, chunk, top)
    requires DepthHash(a) == DepthHash(b)
    ensures a == b
  {
    LastByte(a);
    LastByte(b);
    hide DepthHash;
    if DepthHash(a)[31] == 0 || DepthHash(a)[31] == 2 {
      Determined(a);
      Determined(b);
    }
  }

  lemma LeafPair(x: Bytes, y: Bytes, l: Bytes, r: Bytes)
    requires |x| == |y| == 8 && l == DepthHash(x) && r == DepthHash(y)
    ensures l + r == (l + r)[0..8] + seq(24, _ => 0) + (l + r)[32..40] + seq(24, _ => 0) && (l + r)[31] == 0
    ensures DepthHash(l + r)[31] == 2
  {
    assert (l + r)[0..8] == x && (l + r)[32..40] == y;
  }

  // Everything hashed to commit to a chunk and to three states.
  lemma CommittedShapes(chunk: Digest, trace: seq<u64>) returns (top: Bytes)
    requires |trace| == 3
    ensures |top| == 64 && top[31] != 0
    ensures forall x :: x in Committed(DepthHash, [chunk], trace) ==> Shape(x, chunk, top)
  {
    hide DepthHash, TreeInputs, ToLe8;
    var xs := TraceBytes(trace);
    var level := Leaves(DepthHash, xs);
    var l: Bytes, m: Bytes, r: Bytes := level[0], level[1], level[2];
    ThreeNodeInputs(DepthHash, level, l, m, r);
    LeafPair(xs[0], xs[1], l, m);
    LeafPair(xs[2], xs[2], r, r);
    var next := Up(DepthHash, level);
    var left: Bytes, right: Bytes := next[0], next[1];
    TwoNodeInputs(DepthHash, next, left, right);
    assert Leaves(DepthHash, [chunk]) == [DepthHash(chunk)];
    OneNodeInputs(DepthHash, DepthHash(chunk));
    top := left + right;
    assert top[31] == left[31];
  }

  lemma NothingCollides(chunk: Digest, trace: seq<u64>)
    requires |trace| == 3
    ensures CollisionFree(DepthHash, Committed(DepthHash, [chunk], trace))
  {
    hide DepthHash, Committed, Shape;
    var top := CommittedShapes(chunk, trace);
    var s := Committed(DepthHash, [chunk], trace);
    forall a, b | a in s && b in s && DepthHash(a) == DepthHash(b) ensures a == b {
      KeepsApart(a, b, chunk, top);
    }
  }

  // Under this hash every challenge of a two-step walk is step 0.
  lemma OnlyStepZero(job: Job, nonce: u64, traceRoot: Digest, powValue: Digest, j: nat)
    requires job.k == 2
    ensures Challenge(DepthHash, job, nonce, traceRoot, powValue, j) == 0
  {
    var seed := DepthHash(job.pph + ToLe8(nonce) + traceRoot + powValue);
    assert |seed + ToLe8(j)| == 40;
    assert DepthHash(seed + ToLe8(j))[..8] == seq(8, _ => 0);
    ValueZeros(256, 8);
  }

  lemma EasiestIsMet(a: Digest)
    ensures LeLeq(a, seq(32, _ => 255))
  {
    AllOnes(32);
    ValueBound(256, a);
  }

  /** For every one-chunk model, block, seed, opening count and final state whatsoever: the
      proof over a two-step walk whose second step is false is accepted, with that final
      state, although none of the inputs hashed collide. */
  lemma AnyFinalStateIsAccepted(chunk: Digest, job: Job, tier: u8, nonce: u64, seed: u64, final: u64)
    requires job.k == 2 && job.target == seq(32, _ => 255)
    ensures var trace := [seed, Transition(seed, ToWords(chunk)), final];
      var p := ProofOver(DepthHash, job, tier, nonce, [chunk], trace);
      && p.finalState == final
      && Accepts(DepthHash, job, nonce, seed, p, 1, Root(DepthHash, Leaves(DepthHash, [chunk])))
      && CollisionFree(DepthHash, Committed(DepthHash, [chunk], trace))
      && HashedWithin(DepthHash, Committed(DepthHash, [chunk], trace), job, nonce, seed, p, [chunk], trace)
  {
    hide Transition, ToWords, Accepts, CollisionFree, HashedWithin, DepthHash, Root, Leaves, Path, PowValue, LeLeq;
    hide Open, Challenge, Committed, ToLe8;
    var chunks := [chunk];
    var trace := [seed, Transition(seed, ToWords(chunk)), final];
    var p := ProofOver(DepthHash, job, tier, nonce, chunks, trace);
    NothingCollides(chunk, trace);
    EasiestIsMet(PowValue(final, job.pph, job.h3));
    assert StepHolds(chunks, trace, 0);
    forall j | 0 <= j < job.t ensures Selected(DepthHash, job, nonce, p, j) == 0 {
      OnlyStepZero(job, nonce, p.traceRoot, p.powValue, j);
    }
    AnsweredProofIsAccepted(DepthHash, job, tier, nonce, chunks, trace);
    AnsweredProofHashesNothingNew(DepthHash, job, tier, nonce, chunks, trace);
  }
}
