/** The possession proof: what the prover builds, what the verifier accepts, and the
    two directions between them. */
module Possession {
  import opened Digits
  import opened Words
  import opened Merkle
  import opened Pom
  import opened Order

  datatype Opening = Opening(
    stateBefore: u64,
    chunk: Digest,
    weightPath: seq<Digest>,
    pathBefore: seq<Digest>,
    pathAfter: seq<Digest>)

  datatype PomProof = PomProof(
    tier: u8,
    traceRoot: Digest,
    powValue: Digest,
    finalState: u64,
    initialPath: seq<Digest>,
    finalPath: seq<Digest>,
    openings: seq<Opening>)

  /** What a proof is about: the block, and the walk and opening counts. */
  datatype Job = Job(pph: Digest, time: u64, target: Digest, k: u32, t: nat, h3: bool)

  // ---- the walk ----

  /** The state after `k` data-dependent reads. */
  function Walk(chunks: seq<Digest>, seed: u64, k: nat): u64
    requires chunks != []
  {
    if k == 0 then seed
    else
      var s := Walk(chunks, seed, k - 1);
      Transition(s, ToWords(chunks[s % |chunks|]))
  }

  function Trace(chunks: seq<Digest>, seed: u64, k: nat): (trace: seq<u64>)
    requires chunks != []
    ensures |trace| == k + 1 && trace[0] == seed && trace[k] == Walk(chunks, seed, k)
  {
    seq(k + 1, j requires 0 <= j <= k => Walk(chunks, seed, j))
  }

  function TraceBytes(trace: seq<u64>): (xs: seq<Bytes>)
    ensures |xs| == |trace| && forall x | x in xs :: |x| == 8
  {
    seq(|trace|, j requires 0 <= j < |trace| => ToLe8(trace[j]))
  }

  function TraceLeaf(blake: Blake, state: u64): Digest {
    blake(ToLe8(state))
  }

  // ---- Fiat-Shamir challenges ----

  /** What the challenges of a proof commit to. */
  function Transcript(job: Job, nonce: u64, traceRoot: Digest, powValue: Digest): (t: seq<u8>)
    ensures |t| == 104
  {
    job.pph + ToLe8(nonce) + traceRoot + powValue
  }

  function Challenge(blake: Blake, job: Job, nonce: u64, traceRoot: Digest, powValue: Digest, j: nat): (i: nat)
    requires job.k > 0
    ensures i < job.k
  {
    var seed := blake(Transcript(job, nonce, traceRoot, powValue));
    FromLe8(blake(seed + ToLe8(j))[..8]) % job.k
  }

  // ---- prover ----

  function Open(blake: Blake, chunks: seq<Digest>, trace: seq<u64>, i: nat): Opening
    requires chunks != [] && i + 1 < |trace|
  {
    var leaves := Leaves(blake, TraceBytes(trace));
    var off := trace[i] % |chunks|;
    Opening(trace[i], chunks[off],
      Path(blake, Leaves(blake, chunks), off), Path(blake, leaves, i), Path(blake, leaves, i + 1))
  }

  /** The proof a prover sends who commits to the states `trace` and opens them as committed. */
  function ProofOver(blake: Blake, job: Job, tier: u8, nonce: u64, chunks: seq<Digest>, trace: seq<u64>): (p: PomProof)
    requires chunks != [] && job.k > 0 && |trace| == job.k + 1
    ensures |p.openings| == job.t
  {
    var leaves := Leaves(blake, TraceBytes(trace));
    var root := Root(blake, leaves);
    var pow := PowValue(trace[job.k], job.pph, job.h3);
    PomProof(tier, root, pow, trace[job.k], Path(blake, leaves, 0), Path(blake, leaves, job.k),
      seq(job.t, j requires 0 <= j < job.t =>
        Open(blake, chunks, trace, Challenge(blake, job, nonce, root, pow, j))))
  }

  /** The proof of the source's prover: the states committed to are those of the walk. */
  function BuildProof(blake: Blake, job: Job, tier: u8, nonce: u64, seed: u64, chunks: seq<Digest>): (p: PomProof)
    requires chunks != [] && job.k > 0
    ensures |p.openings| == job.t
  {
    ProofOver(blake, job, tier, nonce, chunks, Trace(chunks, seed, job.k))
  }

  // ---- verifier ----

  predicate OpeningOk(blake: Blake, op: Opening, i: nat, n: nat, traceRoot: Digest, weightRoot: Digest)
    requires n > 0
  {
    && Verify(blake, TraceLeaf(blake, op.stateBefore), i, op.pathBefore, traceRoot)
    && Verify(blake, blake(op.chunk), op.stateBefore % n, op.weightPath, weightRoot)
    && Verify(blake, TraceLeaf(blake, Transition(op.stateBefore, ToWords(op.chunk))), i + 1, op.pathAfter, traceRoot)
  }

  predicate HeadOk(blake: Blake, job: Job, seed: u64, p: PomProof) {
    && |p.openings| == job.t
    && PowValue(p.finalState, job.pph, job.h3) == p.powValue
    && LeLeq(p.powValue, job.target)
    && Verify(blake, TraceLeaf(blake, seed), 0, p.initialPath, p.traceRoot)
    && Verify(blake, TraceLeaf(blake, p.finalState), job.k, p.finalPath, p.traceRoot)
  }

  /** The `j`-th step the verifier selects. */
  function Selected(blake: Blake, job: Job, nonce: u64, p: PomProof, j: nat): (i: nat)
    requires job.k > 0
    ensures i < job.k
  {
    Challenge(blake, job, nonce, p.traceRoot, p.powValue, j)
  }

  predicate AnswerOk(blake: Blake, job: Job, nonce: u64, p: PomProof, n: nat, weightRoot: Digest, j: nat)
    requires n > 0 && job.k > 0 && j < |p.openings|
  {
    OpeningOk(blake, p.openings[j], Selected(blake, job, nonce, p, j), n, p.traceRoot, weightRoot)
  }

  predicate Accepts(blake: Blake, job: Job, nonce: u64, seed: u64, p: PomProof, n: nat, weightRoot: Digest)
    requires n > 0 && job.k > 0
  {
    && HeadOk(blake, job, seed, p)
    && forall j :: 0 <= j < job.t ==> AnswerOk(blake, job, nonce, p, n, weightRoot, j)
  }

  method VerifyHead(blake: Blake, job: Job, seed: u64, p: PomProof) returns (ok: bool)
    ensures ok <==> HeadOk(blake, job, seed, p)
  {
    if |p.openings| != job.t { return false; }
    if PowValue(p.finalState, job.pph, job.h3) != p.powValue { return false; }
    ok := LeLeqLoop(p.powValue, job.target);
    if !ok { return false; }
    ok := VerifyMerkle(blake, TraceLeaf(blake, seed), 0, p.initialPath, p.traceRoot);
    if !ok { return false; }
    ok := VerifyMerkle(blake, TraceLeaf(blake, p.finalState), job.k, p.finalPath, p.traceRoot);
  }

  method VerifyOpening(blake: Blake, op: Opening, i: nat, n: nat, traceRoot: Digest, weightRoot: Digest)
    returns (ok: bool)
    requires n > 0
    ensures ok <==> OpeningOk(blake, op, i, n, traceRoot, weightRoot)
  {
    ok := VerifyMerkle(blake, TraceLeaf(blake, op.stateBefore), i, op.pathBefore, traceRoot);
    if !ok { return false; }
    var off := op.stateBefore % n;
    ok := VerifyMerkle(blake, blake(op.chunk), off, op.weightPath, weightRoot);
    if !ok { return false; }
    var stateAfter := Transition(op.stateBefore, ToWords(op.chunk));
    ok := VerifyMerkle(blake, TraceLeaf(blake, stateAfter), i + 1, op.pathAfter, traceRoot);
  }

  method VerifyProof(blake: Blake, job: Job, nonce: u64, seed: u64, p: PomProof, n: nat, weightRoot: Digest)
    returns (ok: bool)
    requires n > 0 && job.k > 0
    ensures ok <==> Accepts(blake, job, nonce, seed, p, n, weightRoot)
  {
    hide Verify, OpeningOk, Challenge, Transition, PowValue, LeLeq, TraceLeaf;
    var head := VerifyHead(blake, job, seed, p);
    if !head { return false; }
    for j := 0 to job.t
      invariant forall l :: 0 <= l < j ==> AnswerOk(blake, job, nonce, p, n, weightRoot, l)
    {
      var i := Challenge(blake, job, nonce, p.traceRoot, p.powValue, j);
      var good := VerifyOpening(blake, p.openings[j], i, n, p.traceRoot, weightRoot);
      if !good {
        assert !AnswerOk(blake, job, nonce, p, n, weightRoot, j);
        return false;
      }
    }
    return true;
  }

  // ---- completeness ----

  /** Step `i` of a committed trace follows the weights. */
  predicate StepHolds(chunks: seq<Digest>, trace: seq<u64>, i: nat)
    requires chunks != [] && i + 1 < |trace|
  {
    trace[i + 1] == Transition(trace[i], ToWords(chunks[trace[i] % |chunks|]))
  }

  lemma OpenVerifies(blake: Blake, chunks: seq<Digest>, trace: seq<u64>, i: nat)
    requires chunks != [] && i + 1 < |trace| && StepHolds(chunks, trace, i)
    ensures OpeningOk(blake, Open(blake, chunks, trace, i), i, |chunks|,
      Root(blake, Leaves(blake, TraceBytes(trace))), Root(blake, Leaves(blake, chunks)))
  {
    var leaves := Leaves(blake, TraceBytes(trace));
    PathVerifies(blake, leaves, i);
    PathVerifies(blake, leaves, i + 1);
    PathVerifies(blake, Leaves(blake, chunks), trace[i] % |chunks|);
  }

  lemma AnswerCompleteness(blake: Blake, job: Job, tier: u8, nonce: u64, chunks: seq<Digest>, trace: seq<u64>, j: nat)
    requires chunks != [] && job.k > 0 && |trace| == job.k + 1 && j < job.t
    requires StepHolds(chunks, trace, Selected(blake, job, nonce, ProofOver(blake, job, tier, nonce, chunks, trace), j))
    ensures AnswerOk(blake, job, nonce, ProofOver(blake, job, tier, nonce, chunks, trace), |chunks|,
              Root(blake, Leaves(blake, chunks)), j)
  {
    hide OpeningOk, Open, Walk, Path, Root, Challenge, PowValue, StepHolds;
    var p := ProofOver(blake, job, tier, nonce, chunks, trace);
    OpenVerifies(blake, chunks, trace, Selected(blake, job, nonce, p, j));
  }

  lemma HeadCompleteness(blake: Blake, job: Job, tier: u8, nonce: u64, chunks: seq<Digest>, trace: seq<u64>)
    requires chunks != [] && job.k > 0 && |trace| == job.k + 1
    ensures HeadOk(blake, job, trace[0], ProofOver(blake, job, tier, nonce, chunks, trace))
      <==> LeLeq(PowValue(trace[job.k], job.pph, job.h3), job.target)
  {
    hide Transition, PowValue, LeLeq, ToLe8, Path, Root, Walk, Challenge, Open;
    var leaves := Leaves(blake, TraceBytes(trace));
    PathVerifies(blake, leaves, 0);
    PathVerifies(blake, leaves, job.k);
  }

  /** The committed value wins and every challenged step follows the weights. */
  predicate WinsAndAnswers(blake: Blake, job: Job, tier: u8, nonce: u64, chunks: seq<Digest>, trace: seq<u64>)
    requires chunks != [] && job.k > 0 && |trace| == job.k + 1
  {
    && LeLeq(PowValue(trace[job.k], job.pph, job.h3), job.target)
    && forall j :: 0 <= j < job.t ==>
         StepHolds(chunks, trace, Selected(blake, job, nonce, ProofOver(blake, job, tier, nonce, chunks, trace), j))
  }

  /** Whatever the hash: the proof over committed states is accepted for their first state as
      soon as the value wins and the challenged steps, and only those, follow the weights. */
  lemma AnsweredProofIsAccepted(blake: Blake, job: Job, tier: u8, nonce: u64, chunks: seq<Digest>, trace: seq<u64>)
    requires chunks != [] && job.k > 0 && |trace| == job.k + 1
    requires WinsAndAnswers(blake, job, tier, nonce, chunks, trace)
    ensures Accepts(blake, job, nonce, trace[0], ProofOver(blake, job, tier, nonce, chunks, trace),
                    |chunks|, Root(blake, Leaves(blake, chunks)))
  {
    hide ProofOver, HeadOk, AnswerOk, StepHolds;
    HeadCompleteness(blake, job, tier, nonce, chunks, trace);
    forall j | 0 <= j < job.t
      ensures AnswerOk(blake, job, nonce, ProofOver(blake, job, tier, nonce, chunks, trace), |chunks|,
                Root(blake, Leaves(blake, chunks)), j)
    {
      AnswerCompleteness(blake, job, tier, nonce, chunks, trace, j);
    }
  }

  lemma WalkSteps(chunks: seq<Digest>, seed: u64, k: nat)
    requires chunks != []
    ensures forall i :: 0 <= i < k ==> StepHolds(chunks, Trace(chunks, seed, k), i)
  {
    hide Transition, ToWords;
  }

  /** For every hash, every chunk list, every walk length and opening count, the verifier
      accepts the built proof exactly when the walk's value is at most the target. */
  lemma Completeness(blake: Blake, job: Job, tier: u8, nonce: u64, seed: u64, chunks: seq<Digest>)
    requires chunks != [] && job.k > 0
    ensures Accepts(blake, job, nonce, seed, BuildProof(blake, job, tier, nonce, seed, chunks),
                    |chunks|, Root(blake, Leaves(blake, chunks)))
      <==> LeLeq(PowValue(Walk(chunks, seed, job.k), job.pph, job.h3), job.target)
  {
    hide ProofOver, HeadOk, AnswerOk, StepHolds, PowValue, LeLeq, Walk;
    var trace := Trace(chunks, seed, job.k);
    WalkSteps(chunks, seed, job.k);
    HeadCompleteness(blake, job, tier, nonce, chunks, trace);
    if LeLeq(PowValue(trace[job.k], job.pph, job.h3), job.target) {
      AnsweredProofIsAccepted(blake, job, tier, nonce, chunks, trace);
    }
  }

  /** A proof of one era is never accepted in the other: the salt changes the first hash word. */
  lemma ErasNeverMix(blake: Blake, job: Job, other: Job, nonce: u64, seed: u64, seed': u64, p: PomProof,
                     n: nat, weightRoot: Digest)
    requires n > 0 && job.k > 0 && other.k > 0 && job.pph == other.pph && job.h3 != other.h3
    requires Accepts(blake, job, nonce, seed, p, n, weightRoot)
    ensures !Accepts(blake, other, nonce, seed', p, n, weightRoot)
  {
    EraPowValuesDiffer(p.finalState, job.pph);
  }

  // ---- soundness ----

  /** All three paths of an opening are as long as their trees are deep. */
  predicate HasShape(op: Opening, n: nat, m: nat)
    requires n > 0 && m > 0
  {
    |op.weightPath| == Depth(n) && |op.pathBefore| == |op.pathAfter| == Depth(m)
  }

  /** Everything the verifier hashes for one opening lies in `s`. */
  ghost predicate OpeningWithin(blake: Blake, s: iset<Bytes>, op: Opening, i: nat, n: nat)
    requires n > 0
  {
    && OpenInputs(blake, ToLe8(op.stateBefore), i, op.pathBefore) <= s
    && OpenInputs(blake, op.chunk, op.stateBefore % n, op.weightPath) <= s
    && OpenInputs(blake, ToLe8(Transition(op.stateBefore, ToWords(op.chunk))), i + 1, op.pathAfter) <= s
  }

  /** Everything hashed by the tree builder, the committing prover and the verifier lies in `s`. */
  ghost predicate HashedWithin(blake: Blake, s: iset<Bytes>, job: Job, nonce: u64, seed: u64, p: PomProof,
                               chunks: seq<Digest>, trace: seq<u64>)
    requires chunks != [] && trace != [] && job.k > 0 && |p.openings| == job.t
  {
    && CommitInputs(blake, chunks) <= s
    && CommitInputs(blake, TraceBytes(trace)) <= s
    && OpenInputs(blake, ToLe8(seed), 0, p.initialPath) <= s
    && OpenInputs(blake, ToLe8(p.finalState), job.k, p.finalPath) <= s
    && forall j :: 0 <= j < job.t ==>
         OpeningWithin(blake, s, p.openings[j], Selected(blake, job, nonce, p, j), |chunks|)
  }

  lemma StateBinds(blake: Blake, s: iset<Bytes>, trace: seq<u64>, state: u64, i: nat, path: seq<Digest>)
    requires i < |trace| && CollisionFree(blake, s)
    requires CommitInputs(blake, TraceBytes(trace)) <= s && OpenInputs(blake, ToLe8(state), i, path) <= s
    requires Verify(blake, TraceLeaf(blake, state), i, path, Root(blake, Leaves(blake, TraceBytes(trace))))
    ensures state == trace[i] && |path| == Depth(|trace|)
  {
    hide PathInputs, TreeInputs, Root, Fold, Leaves, FromLe8, Pow, Value, CollisionFree, CommitInputs;
    OpeningBinds(blake, s, TraceBytes(trace), ToLe8(state), i, path);
    Le8RoundTrip(state);
    Le8RoundTrip(trace[i]);
  }

  lemma OpeningSound(blake: Blake, s: iset<Bytes>, op: Opening, i: nat, chunks: seq<Digest>, trace: seq<u64>)
    requires chunks != [] && i + 1 < |trace| && CollisionFree(blake, s)
    requires CommitInputs(blake, chunks) <= s && CommitInputs(blake, TraceBytes(trace)) <= s
    requires OpeningWithin(blake, s, op, i, |chunks|)
    requires OpeningOk(blake, op, i, |chunks|,
               Root(blake, Leaves(blake, TraceBytes(trace))), Root(blake, Leaves(blake, chunks)))
    ensures StepHolds(chunks, trace, i) && op.stateBefore == trace[i]
    ensures HasShape(op, |chunks|, |trace|)
  {
    hide OpenInputs, CommitInputs, Root, Fold, Verify, Leaves, ToLe8, Transition, CollisionFree, TraceBytes, TraceLeaf;
    hide ToWords;
    StateBinds(blake, s, trace, op.stateBefore, i, op.pathBefore);
    StateBinds(blake, s, trace, Transition(op.stateBefore, ToWords(op.chunk)), i + 1, op.pathAfter);
    OpeningBinds(blake, s, chunks, op.chunk, op.stateBefore % |chunks|, op.weightPath);
  }

  /** An accepted proof against the true weight root, whose trace root commits to the
      states `trace`, shows the right first and last state, a winning value, and every
      challenged step done on the true chunk; path lengths are forced although nothing
      checks them.  The only assumption on the hash is that no two of the inputs
      actually hashed collide. */
  lemma Soundness(blake: Blake, s: iset<Bytes>, job: Job, nonce: u64, seed: u64, p: PomProof,
                  chunks: seq<Digest>, trace: seq<u64>)
    requires chunks != [] && job.k > 0 && |trace| == job.k + 1
    requires Accepts(blake, job, nonce, seed, p, |chunks|, Root(blake, Leaves(blake, chunks)))
    requires p.traceRoot == Root(blake, Leaves(blake, TraceBytes(trace)))
    requires CollisionFree(blake, s) && HashedWithin(blake, s, job, nonce, seed, p, chunks, trace)
    ensures trace[0] == seed && trace[job.k] == p.finalState
    ensures LeLeq(PowValue(trace[job.k], job.pph, job.h3), job.target)
    ensures |p.initialPath| == |p.finalPath| == Depth(job.k + 1)
    ensures forall j :: 0 <= j < job.t ==>
      StepHolds(chunks, trace, Selected(blake, job, nonce, p, j)) && HasShape(p.openings[j], |chunks|, |trace|)
  {
    StateBinds(blake, s, trace, seed, 0, p.initialPath);
    StateBinds(blake, s, trace, p.finalState, job.k, p.finalPath);
    forall j | 0 <= j < job.t
      ensures StepHolds(chunks, trace, Selected(blake, job, nonce, p, j)) && HasShape(p.openings[j], |chunks|, |trace|)
    {
      assert AnswerOk(blake, job, nonce, p, |chunks|, Root(blake, Leaves(blake, chunks)), j);
      OpeningSound(blake, s, p.openings[j], Selected(blake, job, nonce, p, j), chunks, trace);
    }
  }

  /** The inputs of both commitments. */
  ghost function Committed(blake: Blake, chunks: seq<Digest>, trace: seq<u64>): iset<Bytes>
    requires chunks != [] && trace != []
  {
    CommitInputs(blake, chunks) + CommitInputs(blake, TraceBytes(trace))
  }

  lemma TrueOpeningWithin(blake: Blake, chunks: seq<Digest>, trace: seq<u64>, i: nat)
    requires chunks != [] && i + 1 < |trace| && StepHolds(chunks, trace, i)
    ensures OpeningWithin(blake, Committed(blake, chunks, trace), Open(blake, chunks, trace, i), i, |chunks|)
  {
    hide Transition, ToWords, Leaves, Path, CommitInputs, OpenInputs, ToLe8, Walk;
    HonestOpenInputs(blake, TraceBytes(trace), i);
    HonestOpenInputs(blake, TraceBytes(trace), i + 1);
    HonestOpenInputs(blake, chunks, trace[i] % |chunks|);
  }

  /** Checking a proof whose challenged steps follow the weights hashes nothing but what the
      two commitments hash. */
  lemma AnsweredProofHashesNothingNew(blake: Blake, job: Job, tier: u8, nonce: u64, chunks: seq<Digest>,
                                      trace: seq<u64>)
    requires chunks != [] && job.k > 0 && |trace| == job.k + 1
    requires WinsAndAnswers(blake, job, tier, nonce, chunks, trace)
    ensures HashedWithin(blake, Committed(blake, chunks, trace), job, nonce, trace[0],
              ProofOver(blake, job, tier, nonce, chunks, trace), chunks, trace)
  {
    hide Transition, ToWords, Leaves, Path, CommitInputs, OpenInputs, ToLe8, StepHolds, Open, OpeningWithin, PowValue,
      Challenge;
    var p := ProofOver(blake, job, tier, nonce, chunks, trace);
    HonestOpenInputs(blake, TraceBytes(trace), 0);
    HonestOpenInputs(blake, TraceBytes(trace), job.k);
    forall j | 0 <= j < job.t
      ensures OpeningWithin(blake, Committed(blake, chunks, trace), p.openings[j],
                Selected(blake, job, nonce, p, j), |chunks|)
    {
      TrueOpeningWithin(blake, chunks, trace, Selected(blake, job, nonce, p, j));
    }
  }

  /** Soundness speaks about every honest proof: a winning one meets all its premises as soon
      as no two inputs of the two commitments collide. */
  lemma HonestProofMeetsSoundness(blake: Blake, job: Job, tier: u8, nonce: u64, seed: u64, chunks: seq<Digest>)
    requires chunks != [] && job.k > 0
    requires LeLeq(PowValue(Walk(chunks, seed, job.k), job.pph, job.h3), job.target)
    ensures var (p, trace) := (BuildProof(blake, job, tier, nonce, seed, chunks), Trace(chunks, seed, job.k));
      && Accepts(blake, job, nonce, seed, p, |chunks|, Root(blake, Leaves(blake, chunks)))
      && p.traceRoot == Root(blake, Leaves(blake, TraceBytes(trace)))
      && HashedWithin(blake, Committed(blake, chunks, trace), job, nonce, seed, p, chunks, trace)
  {
    hide LeLeq, PowValue, Walk, StepHolds, HashedWithin, Accepts;
    Completeness(blake, job, tier, nonce, seed, chunks);
    WalkSteps(chunks, seed, job.k);
    AnsweredProofHashesNothingNew(blake, job, tier, nonce, chunks, Trace(chunks, seed, job.k));
  }

  /** Exactly which committed states the verifier accepts: those that start at the seed, whose
      value wins, and whose challenged steps follow the weights.  Any other step may be false. */
  lemma CommittedProofExactly(blake: Blake, s: iset<Bytes>, job: Job, tier: u8, nonce: u64, seed: u64,
                              chunks: seq<Digest>, trace: seq<u64>)
    requires chunks != [] && job.k > 0 && |trace| == job.k + 1
    requires CollisionFree(blake, s)
    requires HashedWithin(blake, s, job, nonce, seed, ProofOver(blake, job, tier, nonce, chunks, trace), chunks, trace)
    ensures Accepts(blake, job, nonce, seed, ProofOver(blake, job, tier, nonce, chunks, trace),
                    |chunks|, Root(blake, Leaves(blake, chunks)))
      <==> trace[0] == seed && WinsAndAnswers(blake, job, tier, nonce, chunks, trace)
  {
    hide CollisionFree, HashedWithin, Accepts, StepHolds, HasShape;
    var p := ProofOver(blake, job, tier, nonce, chunks, trace);
    if Accepts(blake, job, nonce, seed, p, |chunks|, Root(blake, Leaves(blake, chunks))) {
      Soundness(blake, s, job, nonce, seed, p, chunks, trace);
    } else if trace[0] == seed && WinsAndAnswers(blake, job, tier, nonce, chunks, trace) {
      AnsweredProofIsAccepted(blake, job, tier, nonce, chunks, trace);
    }
  }

  lemma {:induction false} HonestPrefix(chunks: seq<Digest>, trace: seq<u64>, m: nat)
    requires chunks != [] && m < |trace|
    requires forall i :: 0 <= i < m ==> StepHolds(chunks, trace, i)
    ensures trace[m] == Walk(chunks, trace[0], m)
  {
    hide Transition, ToWords;
    if m == 0 {
    } else {
      HonestPrefix(chunks, trace, m - 1);
      assert StepHolds(chunks, trace, m - 1);
    }
  }

  /** A proof that carries any final state but the walk's own has a false step that no
      challenge selected.  When the challenges hit every step, it carries the walk's. */
  lemma FalseFinalStateEscapes(blake: Blake, s: iset<Bytes>, job: Job, nonce: u64, seed: u64, p: PomProof,
                               chunks: seq<Digest>, trace: seq<u64>)
    returns (missed: nat)
    requires chunks != [] && job.k > 0 && |trace| == job.k + 1
    requires Accepts(blake, job, nonce, seed, p, |chunks|, Root(blake, Leaves(blake, chunks)))
    requires p.traceRoot == Root(blake, Leaves(blake, TraceBytes(trace)))
    requires CollisionFree(blake, s) && HashedWithin(blake, s, job, nonce, seed, p, chunks, trace)
    requires p.finalState != Walk(chunks, seed, job.k)
    ensures missed < job.k && !StepHolds(chunks, trace, missed)
    ensures forall j :: 0 <= j < job.t ==> Selected(blake, job, nonce, p, j) != missed
  {
    Soundness(blake, s, job, nonce, seed, p, chunks, trace);
    if forall i :: 0 <= i < job.k ==> StepHolds(chunks, trace, i) {
      HonestPrefix(chunks, trace, job.k);
      assert false;
    }
    missed :| 0 <= missed < job.k && !StepHolds(chunks, trace, missed);
  }
}
