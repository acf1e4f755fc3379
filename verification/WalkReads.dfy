/** Which bytes of the model file a walk reads, and what each read contributes. */
module WalkReads {
  import opened Words
  import opened Merkle
  import opened Pom
  import opened Possession
  import opened Weights
  import opened Folds

  /** How many full chunks the first `a` tensors hold. */
  function ChunksBefore(ts: seq<Tensor>, a: nat): nat
    requires a <= |ts|
  {
    if a == 0 then 0 else ChunksBefore(ts, a - 1) + ts[a - 1].size / 32
  }

  /** Chunk `c` of tensor `a` comes after all full chunks of the tensors before it, and is its
      32 bytes from `32 * c` on; a remainder of fewer than 32 bytes is in no chunk. */
  lemma {:induction false} ChunkPlace(gguf: seq<u8>, ts: seq<Tensor>, a: nat, c: nat)
    requires Fits(gguf, ts) && a < |ts| && 32 * c + 32 <= ts[a].size
    ensures |Chunks(gguf, ts)| == ChunksBefore(ts, |ts|)
    ensures ChunksBefore(ts, a) + c < |Chunks(gguf, ts)|
    ensures Chunks(gguf, ts)[ChunksBefore(ts, a) + c]
         == gguf[ts[a].offset + 32 * c..ts[a].offset + 32 * c + 32]
    decreases |ts|
  {
    hide TensorChunks;
    var l := |ts| - 1;
    ChunkCount(gguf, ts);
    SameBefore(ts, a);
    if a < l {
      ChunkPlace(gguf, ts[..l], a, c);
      ChunkCount(gguf, ts[..l]);
    } else {
      LastChunks(gguf, ts, c);
    }
  }

  lemma LastChunks(gguf: seq<u8>, ts: seq<Tensor>, c: nat)
    requires Fits(gguf, ts) && ts != [] && 32 * c + 32 <= ts[|ts| - 1].size
    ensures ChunksBefore(ts, |ts| - 1) + c < |Chunks(gguf, ts)|
    ensures var t := ts[|ts| - 1];
      Chunks(gguf, ts)[ChunksBefore(ts, |ts| - 1) + c] == gguf[t.offset + 32 * c..t.offset + 32 * c + 32]
  {
    ChunkCount(gguf, ts[..|ts| - 1]);
    SameBefore(ts, |ts| - 1);
  }

  lemma {:induction false} ChunkCount(gguf: seq<u8>, ts: seq<Tensor>)
    requires Fits(gguf, ts)
    ensures |Chunks(gguf, ts)| == ChunksBefore(ts, |ts|)
    decreases |ts|
  {
    if ts != [] {
      ChunkCount(gguf, ts[..|ts| - 1]);
      SameBefore(ts, |ts| - 1);
    }
  }

  lemma {:induction false} SameBefore(ts: seq<Tensor>, a: nat)
    requires a < |ts|
    ensures ChunksBefore(ts[..|ts| - 1], a) == ChunksBefore(ts, a)
    decreases a
  {
    if a > 0 {
      SameBefore(ts, a - 1);
    }
  }

  /** What a chunk contributes to a transition: the exclusive or of its four words. */
  function Contribution(c: Digest): u64 {
    var w := ToWords(c);
    Xor64(Xor64(w[0], w[1]), Xor64(w[2], w[3]))
  }

  /** Replacing one chunk of the weights changes a step of the walk exactly when the step reads
      that chunk, at its state modulo the number of chunks, and the two contribute differently. */
  lemma StepReadsExactly(chunks: seq<Digest>, seed: u64, k: nat, o: nat, c: Digest)
    requires o < |chunks| && Walk(chunks[o := c], seed, k) == Walk(chunks, seed, k)
    ensures Walk(chunks[o := c], seed, k + 1) == Walk(chunks, seed, k + 1) <==>
      Walk(chunks, seed, k) % |chunks| != o || Contribution(c) == Contribution(chunks[o])
  {
    hide Transition, ToWords;
    var s := Walk(chunks, seed, k);
    var d := chunks[s % |chunks|];
    TransitionAlike(s, ToWords(c), ToWords(d));
  }

  lemma TransitionAlike(s: u64, a: Quad, b: Quad)
    ensures Transition(s, a) == Transition(s, b) <==>
      Xor64(Xor64(a[0], a[1]), Xor64(a[2], a[3])) == Xor64(Xor64(b[0], b[1]), Xor64(b[2], b[3]))
  {
    hide Transition, Xor64, Mix64;
    var x, y := Xor64(Xor64(a[0], a[1]), Xor64(a[2], a[3])), Xor64(Xor64(b[0], b[1]), Xor64(b[2], b[3]));
    TransitionAbsorbs(s, a);
    TransitionAbsorbs(s, b);
    AbsorbOne(s, x);
    AbsorbOne(s, y);
    if Mix64(Xor64(s, x)) == Mix64(Xor64(s, y)) {
      SameInput(s, x, y);
    }
  }

  /** The walk is the only sequence of states that starts at the seed and in which every state
      mixes in the words of the chunk at the state before, modulo the number of chunks. */
  lemma {:induction false} WalkIsTheSequence(chunks: seq<Digest>, seed: u64, states: seq<u64>, j: nat)
    requires chunks != [] && j < |states| && states[0] == seed
    requires forall i :: 0 <= i < |states| - 1 ==>
      states[i + 1] == Mix64(Xor64(states[i], Contribution(chunks[states[i] % |chunks|])))
    ensures states[j] == Walk(chunks, seed, j)
    decreases j
  {
    hide Transition, ToWords, Xor64, Mix64, Contribution;
    if j > 0 {
      WalkIsTheSequence(chunks, seed, states, j - 1);
      var s := states[j - 1];
      TransitionMixes(s, chunks[s % |chunks|]);
    }
  }

  lemma TransitionMixes(s: u64, c: Digest)
    ensures Transition(s, ToWords(c)) == Mix64(Xor64(s, Contribution(c)))
  {
    hide Transition, ToWords, Xor64, Mix64;
    TransitionAbsorbs(s, ToWords(c));
    AbsorbOne(s, Contribution(c));
  }
}
