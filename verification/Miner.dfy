/** The host miner over a weight index: the search walk, the recording prover, and the
    nonce search. */
module Miner {
  import opened Words
  import opened Merkle
  import opened Pom
  import opened Order
  import opened Possession
  import opened Weights
  import opened Gpu
  import opened Wrappers

  /** The hot search walk: only the last state. */
  method WalkFinal(blake: Blake, index: WeightIndex, seed: u64, k: u32, ghost ts: seq<Tensor>) returns (state: u64)
    requires IndexOf(blake, index, ts)
    ensures state == Walk(Chunks(index.gguf, ts), seed, k)
  {
    hide Transition, ToWords, Chunks, Leaves, Root;
    state := seed;
    var off := state % index.nChunks;
    for i := 0 to k
      invariant state == Walk(Chunks(index.gguf, ts), seed, i) && off == state % index.nChunks
    {
      var chunk := ReadChunk(blake, index, off, ts);
      state := Transition(state, chunk);
      off := state % index.nChunks;
    }
  }

  /** The walk again, recording every state. */
  method RecordTrace(blake: Blake, index: WeightIndex, seed: u64, k: u32, ghost ts: seq<Tensor>)
    returns (trace: seq<u64>)
    requires IndexOf(blake, index, ts)
    ensures trace == Trace(Chunks(index.gguf, ts), seed, k)
  {
    hide Transition, ToWords, Chunks, Leaves, Root;
    var state := seed;
    trace := [state];
    var off := state % index.nChunks;
    for i := 0 to k
      invariant trace == Trace(Chunks(index.gguf, ts), seed, i) && state == trace[i] && off == state % index.nChunks
    {
      var chunk := ReadChunk(blake, index, off, ts);
      state := Transition(state, chunk);
      trace := trace + [state];
      off := state % index.nChunks;
    }
  }

  method OpenStep(blake: Blake, index: WeightIndex, trace: seq<u64>, leaves: seq<Digest>, i: nat, ghost ts: seq<Tensor>)
    returns (op: Opening)
    requires IndexOf(blake, index, ts) && i + 1 < |trace| && leaves == Leaves(blake, TraceBytes(trace))
    ensures op == Open(blake, Chunks(index.gguf, ts), trace, i)
  {
    hide ToWords, ToBytes, Chunks, Leaves, Root, Path;
    var sb := trace[i];
    var off := sb % index.nChunks;
    var words := ReadChunk(blake, index, off, ts);
    BytesOfWords(Chunks(index.gguf, ts)[off]);
    var weightPath := MerklePath(blake, index, off, ts);
    var before := MerkleProof(blake, leaves, i);
    var after := MerkleProof(blake, leaves, i + 1);
    op := Opening(sb, ToBytes(words), weightPath, before, after);
  }

  /** The prover of the source builds the proof the theorems are about. */
  method BuildProofLoop(blake: Blake, index: WeightIndex, job: Job, tier: u8, nonce: u64, seed: u64,
                        ghost ts: seq<Tensor>)
    returns (p: PomProof)
    requires IndexOf(blake, index, ts) && job.k > 0
    ensures p == BuildProof(blake, job, tier, nonce, seed, Chunks(index.gguf, ts))
  {
    hide Walk, Chunks, Leaves, Root, Path, Open, PowValue, Challenge;
    var trace := RecordTrace(blake, index, seed, job.k, ts);
    var leaves := Leaves(blake, TraceBytes(trace));
    var traceRoot := MerkleRoot(blake, leaves);
    var powValue := PowValue(trace[job.k], job.pph, job.h3);
    var openings := [];
    for j := 0 to job.t
      invariant |openings| == j
      invariant forall l :: 0 <= l < j ==>
        openings[l] == Open(blake, Chunks(index.gguf, ts), trace, Challenge(blake, job, nonce, traceRoot, powValue, l))
    {
      var op := OpenStep(blake, index, trace, leaves, Challenge(blake, job, nonce, traceRoot, powValue, j), ts);
      openings := openings + [op];
    }
    var initialPath := MerkleProof(blake, leaves, 0);
    var finalPath := MerkleProof(blake, leaves, job.k);
    p := PomProof(tier, traceRoot, powValue, trace[job.k], initialPath, finalPath, openings);
  }

  /** The last nonce a range may reach: the end saturates. */
  function RangeEnd(start: u64, count: u64): u64 {
    if start + count < WORD then start + count else WORD - 1
  }

  /** The search returns the first winning nonce of its range together with a proof that the
      verifier accepts, and nothing only when no nonce of the range wins. */
  method MinePom(blake: Blake, index: WeightIndex, tier: u8, job: Job, start: u64, count: u64, ghost ts: seq<Tensor>)
    returns (r: Option<(u64, PomProof)>)
    requires IndexOf(blake, index, ts) && job.k > 0
    ensures r.None? ==>
      forall nonce: u64 | start <= nonce < start + count && nonce < 0xFFFF_FFFF_FFFF_FFFF ::
        !Wins(Chunks(index.gguf, ts), job, nonce)
    ensures r.Some? ==>
      var (nonce, p) := r.value;
      && start <= nonce < start + count && nonce < 0xFFFF_FFFF_FFFF_FFFF && Wins(Chunks(index.gguf, ts), job, nonce)
      && (forall m: u64 | start <= m < nonce :: !Wins(Chunks(index.gguf, ts), job, m))
      && p.tier == tier
      && Accepts(blake, job, nonce, BlockSeed(job.pph, job.time, nonce, job.h3), p, index.nChunks, index.rt)
  {
    hide Walk, Chunks, PowValue, BlockSeed, LeLeq, Accepts;
    var nonce := start;
    while nonce < RangeEnd(start, count)
      invariant start <= nonce && (nonce <= RangeEnd(start, count) || nonce == start)
      invariant forall m: u64 | start <= m < nonce :: !Wins(Chunks(index.gguf, ts), job, m)
    {
      var seed := BlockSeed(job.pph, job.time, nonce, job.h3);
      var final := WalkFinal(blake, index, seed, job.k, ts);
      var won := LeLeqLoop(PowValue(final, job.pph, job.h3), job.target);
      if won {
        var p := BuildProofLoop(blake, index, job, tier, nonce, seed, ts);
        Completeness(blake, job, tier, nonce, seed, Chunks(index.gguf, ts));
        return Some((nonce, p));
      }
      nonce := nonce + 1;
    }
    return None;
  }
}
