/** The CUDA search: the gather tables, the kernel body, and a launch as its threads
    lowering one shared winner in any order. */
module Gpu {
  import opened Digits
  import opened Words
  import opened Merkle
  import opened Pom
  import opened Order
  import opened Possession
  import opened Weights
  import opened Wrappers

  const NO_WINNER: u64 := 0xFFFF_FFFF_FFFF_FFFF

  datatype Gather = Gather(bases: seq<seq<u64>>, prefix: seq<nat>)

  /** `g` is the gather of the model: the start of every segment, then the chunk count. */
  ghost predicate GatherOf(g: Gather, gguf: seq<u8>, ts: seq<Tensor>) {
    && Fits(gguf, ts)
    && g.bases == Bases(gguf, ts)
    && |g.prefix| == |g.bases| + 1
    && (forall j :: 0 <= j < |g.bases| ==> g.prefix[j] == Table(gguf, ts)[j].start)
    && g.prefix[|g.bases|] == |Chunks(gguf, ts)|
  }

  method LoadGather(gguf: seq<u8>, ts: seq<Tensor>) returns (r: Result<Gather>)
    ensures r.Ok? <==> Fits(gguf, ts) && Chunks(gguf, ts) != []
    ensures r.Ok? ==> GatherOf(r.value, gguf, ts)
  {
    var g := Gather([], [0]);
    for a := 0 to |ts|
      invariant Fits(gguf, ts[..a]) && GatherOf(g, gguf, ts[..a])
    {
      var t := ts[a];
      if t.offset + t.size > |gguf| { return Err("tensor outside the file"); }
      SnocTensor(gguf, ts, a);
      var chunks := t.size / 32;
      if chunks != 0 {
        hide TensorWords, TensorChunks, Chunks, Table, Bases;
        g := Gather(g.bases + [TensorWords(gguf, t)], g.prefix + [g.prefix[|g.prefix| - 1] + chunks]);
      }
    }
    assert ts[..|ts|] == ts;
    if g.prefix[|g.prefix| - 1] == 0 { return Err("model produced 0 chunks"); }
    r := Ok(g);
  }

  const U32: nat := 0x1_0000_0000

  /** The bounds after at most `turns` turns of the kernel's bisection, in 32-bit arithmetic. */
  function Bisect(prefix: seq<nat>, off: nat, lo: nat, hi: nat, turns: nat): (bounds: (nat, nat))
    requires hi < |prefix|
    decreases turns
  {
    if turns == 0 || lo + 1 >= hi then (lo, hi)
    else
      var mid := (lo + hi) % U32 / 2;
      if prefix[mid] <= off then Bisect(prefix, off, mid, hi, turns - 1) else Bisect(prefix, off, lo, mid, turns - 1)
  }

  /** After `turns` turns the kernel's bisection has stopped, at the segment that covers the chunk. */
  ghost predicate FindsIn(g: Gather, off: nat, gguf: seq<u8>, ts: seq<Tensor>, turns: nat)
    requires GatherOf(g, gguf, ts)
  {
    var (lo, hi) := Bisect(g.prefix, off, 0, |g.bases| % U32, turns);
    lo + 1 >= hi && Covers(Table(gguf, ts), off, lo)
  }

  ghost predicate Finds(g: Gather, off: nat, gguf: seq<u8>, ts: seq<Tensor>)
    requires GatherOf(g, gguf, ts)
  {
    exists turns: nat :: FindsIn(g, off, gguf, ts, turns)
  }

  lemma Midpoint(lo: nat, hi: nat)
    requires lo + 1 < hi <= 0x8000_0000
    ensures lo < (lo + hi) % U32 / 2 < hi
  {
    assert (lo + hi) % U32 == lo + hi;
  }

  lemma {:induction false} BisectFinds(prefix: seq<nat>, off: nat, lo: nat, hi: nat)
    requires 0 < |prefix| <= 0x8000_0001 && lo < hi < |prefix|
    requires prefix[lo] <= off && (hi + 1 < |prefix| ==> off < prefix[hi])
    ensures var (l, h) := Bisect(prefix, off, lo, hi, hi - lo);
      l + 1 >= h && l + 1 < |prefix| && prefix[l] <= off && (l + 2 < |prefix| ==> off < prefix[l + 1])
    decreases hi - lo
  {
    if lo + 1 < hi {
      var mid := (lo + hi) % U32 / 2;
      Midpoint(lo, hi);
      hide *;
      if prefix[mid] <= off {
        BisectFinds(prefix, off, mid, hi);
        MoreTurns(prefix, off, mid, hi, hi - mid, hi - lo - 1);
        RightTurn(prefix, off, lo, hi);
      } else {
        BisectFinds(prefix, off, lo, mid);
        MoreTurns(prefix, off, lo, mid, mid - lo, hi - lo - 1);
        LeftTurn(prefix, off, lo, hi);
      }
    }
  }

  lemma RightTurn(prefix: seq<nat>, off: nat, lo: nat, hi: nat)
    requires lo + 1 < hi < |prefix| && prefix[(lo + hi) % U32 / 2] <= off
    ensures Bisect(prefix, off, lo, hi, hi - lo) == Bisect(prefix, off, (lo + hi) % U32 / 2, hi, hi - lo - 1)
  {
  }

  lemma LeftTurn(prefix: seq<nat>, off: nat, lo: nat, hi: nat)
    requires lo + 1 < hi < |prefix| && prefix[(lo + hi) % U32 / 2] > off
    ensures Bisect(prefix, off, lo, hi, hi - lo) == Bisect(prefix, off, lo, (lo + hi) % U32 / 2, hi - lo - 1)
  {
  }

  // Once stopped, further turns change nothing.
  lemma {:induction false} MoreTurns(prefix: seq<nat>, off: nat, lo: nat, hi: nat, turns: nat, more: nat)
    requires hi < |prefix| && turns <= more
    requires var (lo', hi') := Bisect(prefix, off, lo, hi, turns); lo' + 1 >= hi'
    ensures Bisect(prefix, off, lo, hi, more) == Bisect(prefix, off, lo, hi, turns)
    decreases turns
  {
    if turns == 0 || lo + 1 >= hi {
    } else {
      var mid := (lo + hi) % U32 / 2;
      if prefix[mid] <= off {
        MoreTurns(prefix, off, mid, hi, turns - 1, more - 1);
      } else {
        MoreTurns(prefix, off, lo, mid, turns - 1, more - 1);
      }
    }
  }

  // A 32-bit midpoint is below 2^31, so no segment from there on is ever reached.
  lemma {:induction false} LowStaysLow(prefix: seq<nat>, off: nat, lo: nat, hi: nat, turns: nat)
    requires hi < |prefix| && lo < 0x8000_0000
    ensures Bisect(prefix, off, lo, hi, turns).0 < 0x8000_0000
    decreases turns
  {
    if turns == 0 || lo + 1 >= hi {
    } else {
      var mid := (lo + hi) % U32 / 2;
      if prefix[mid] <= off {
        LowStaysLow(prefix, off, mid, hi, turns - 1);
      } else {
        LowStaysLow(prefix, off, lo, mid, turns - 1);
      }
    }
  }

  lemma SmallGatherFinds(g: Gather, off: nat, gguf: seq<u8>, ts: seq<Tensor>)
    requires GatherOf(g, gguf, ts) && off < |Chunks(gguf, ts)| && |g.bases| <= 0x8000_0000
    ensures FindsIn(g, off, gguf, ts, |g.bases|)
  {
    hide Chunks, Table, Bases, Bisect;
    TableAscends(gguf, ts);
    assert |g.bases| % U32 == |g.bases|;
    BisectFinds(g.prefix, off, 0, |g.bases|);
    var b := Bisect(g.prefix, off, 0, |g.bases|, |g.bases| - 0);
    assert Covers(Table(gguf, ts), off, b.0);
  }

  lemma LargeGatherMissesLast(g: Gather, gguf: seq<u8>, ts: seq<Tensor>, turns: nat)
    requires GatherOf(g, gguf, ts) && Chunks(gguf, ts) != [] && |g.bases| > 0x8000_0000
    ensures !FindsIn(g, |Chunks(gguf, ts)| - 1, gguf, ts, turns)
  {
    hide Chunks, Table, Bases, Bisect;
    TableAscends(gguf, ts);
    LowStaysLow(g.prefix, |Chunks(gguf, ts)| - 1, 0, |g.bases| % U32, turns);
  }

  /** The kernel's 32-bit bisection finds every chunk exactly when at most 2^31 tensors are
      gathered.  With more, it never reaches the last segment: the midpoint wraps. */
  lemma BisectionExactly(g: Gather, gguf: seq<u8>, ts: seq<Tensor>)
    requires GatherOf(g, gguf, ts) && Chunks(gguf, ts) != []
    ensures (forall off :: 0 <= off < |Chunks(gguf, ts)| ==> Finds(g, off, gguf, ts)) <==> |g.bases| <= 0x8000_0000
  {
    hide Chunks, FindsIn, Table, Bases;
    var last := |Chunks(gguf, ts)| - 1;
    if |g.bases| <= 0x8000_0000 {
      forall off | 0 <= off <= last ensures Finds(g, off, gguf, ts) {
        SmallGatherFinds(g, off, gguf, ts);
      }
    } else if Finds(g, last, gguf, ts) {
      var turns: nat :| FindsIn(g, last, gguf, ts, turns);
      LargeGatherMissesLast(g, gguf, ts, turns);
    }
  }

  /** The kernel's bisection over at most 2^31 tensors. */
  method Locate(g: Gather, off: nat, ghost gguf: seq<u8>, ghost ts: seq<Tensor>) returns (lo: nat)
    requires GatherOf(g, gguf, ts) && off < |Chunks(gguf, ts)| && |g.bases| <= 0x8000_0000
    ensures Covers(Table(gguf, ts), off, lo)
  {
    TableAscends(gguf, ts);
    lo := 0;
    var hi := |g.bases|;
    while lo + 1 < hi
      invariant 0 <= lo < hi <= |g.bases|
      invariant g.prefix[lo] <= off && (hi < |g.bases| ==> off < g.prefix[hi])
    {
      var mid := (lo + hi) % U32 / 2;
      if g.prefix[mid] <= off { lo := mid; } else { hi := mid; }
    }
  }

  /** What one thread accepts: the kernel's folds over the words it was given. */
  predicate KernelWins(chunks: seq<Digest>, k: nat, p: Quad, time: u64, t: Quad, nonce: u64)
    requires chunks != []
  {
    PomLeLeq(PowFold(Walk(chunks, SeedFold(p, time, nonce), k), p), t)
  }

  /** The nonces the host accepts. */
  predicate Wins(chunks: seq<Digest>, job: Job, nonce: u64)
    requires chunks != []
  {
    LeLeq(PowValue(Walk(chunks, BlockSeed(job.pph, job.time, nonce, job.h3), job.k), job.pph, job.h3), job.target)
  }

  /** Kernel and host accept the same nonces. */
  lemma KernelAgrees(chunks: seq<Digest>, job: Job, nonce: u64)
    requires chunks != []
    ensures KernelWins(chunks, job.k, EraWords(job.pph, job.h3), job.time, ToWords(job.target), nonce)
      <==> Wins(chunks, job, nonce)
  {
    hide Walk, SeedFold, PowFold, LeLeq, PomLeLeq, ToBytes, ToWords, EraWords;
    var p := EraWords(job.pph, job.h3);
    var fold := PowFold(Walk(chunks, SeedFold(p, job.time, nonce), job.k), p);
    WordsOfBytes(fold);
    ComparisonsAgree(ToBytes(fold), job.target);
  }

  function ThreadNonce(start: u64, tid: nat): u64 {
    (start + tid) % WORD
  }

  method ReadGather(g: Gather, off: nat, ghost gguf: seq<u8>, ghost ts: seq<Tensor>) returns (quad: Quad)
    requires GatherOf(g, gguf, ts) && off < |Chunks(gguf, ts)| && |g.bases| <= 0x8000_0000
    ensures quad == ToWords(Chunks(gguf, ts)[off])
  {
    hide GatherQuad, Chunks, Bases, Table, ToWords;
    var lo := Locate(g, off, gguf, ts);
    CoveringSegmentLocates(gguf, ts, off, lo);
    quad := GatherQuad(g.bases[lo], off - g.prefix[lo]);
  }

  /** The kernel's walk is the host's. */
  method GatherWalk(g: Gather, n: nat, k: u32, seed: u64, ghost gguf: seq<u8>, ghost ts: seq<Tensor>)
    returns (state: u64)
    requires GatherOf(g, gguf, ts) && n == |Chunks(gguf, ts)| > 0 && |g.bases| <= 0x8000_0000
    ensures state == Walk(Chunks(gguf, ts), seed, k)
  {
    hide Transition, Chunks, ToWords;
    state := seed;
    var off := state % n;
    for i := 0 to k
      invariant state == Walk(Chunks(gguf, ts), seed, i) && off == state % n
    {
      var quad := ReadGather(g, off, gguf, ts);
      state := Transition(state, quad);
      off := state % n;
    }
  }

  /** One thread of the kernel; its only effect is to lower the shared winner. */
  method Thread(g: Gather, n: nat, k: u32, p: Quad, time: u64, t: Quad, start: u64, batch: u64, tid: nat, winner: u64,
                ghost gguf: seq<u8>, ghost ts: seq<Tensor>)
    returns (winner': u64)
    requires GatherOf(g, gguf, ts) && n == |Chunks(gguf, ts)| > 0 && |g.bases| <= 0x8000_0000
    ensures var nonce := (start + tid) % 0x1_0000_0000_0000_0000;
      winner' ==
      if tid < batch && nonce < winner && KernelWins(Chunks(gguf, ts), k, p, time, t, nonce) then nonce else winner
  {
    hide SeedFold, PowFold, PomLeLeq, Walk;
    if tid >= batch { return winner; }
    var nonce := ThreadNonce(start, tid);
    var state := GatherWalk(g, n, k, SeedFold(p, time, nonce), gguf, ts);
    var pv := PowFold(state, p);
    winner' := if PomLeLeq(pv, t) && nonce < winner then nonce else winner;
  }

  // ---- a launch ----

  /** The number of threads of a launch, in the host's 64- and 32-bit arithmetic. */
  function LaunchSize(batch: u64, block: u32): nat
    requires block > 0
  {
    (batch + (block - 1)) % WORD / block % 0x1_0000_0000 * block
  }

  /** A launch covers its batch exactly when the grid size neither wraps nor is cut off. */
  lemma LaunchCovers(batch: u64, block: u32)
    requires block > 0
    ensures LaunchSize(batch, block) >= batch
      <==> batch + block - 1 < WORD && (batch + block - 1) / block < 0x1_0000_0000
  {
    var sum := batch + block - 1;
    if sum >= WORD {
      var w := sum - WORD;
      assert sum % WORD == w;
      assert w < block;
      DivModUnique(w, block, 0, w);
    } else {
      assert sum % WORD == sum;
      var c := sum / block;
      assert sum == block * c + sum % block;
      if c < 0x1_0000_0000 {
        assert c % 0x1_0000_0000 == c;
        assert c * block >= batch;
      } else {
        assert c % 0x1_0000_0000 <= c - 1;
        MulMono(c % 0x1_0000_0000, c - 1, block);
        assert (c - 1) * block == c * block - block;
      }
    }
  }

  /** `g` blocks of threads hold the batch, and one less does not. */
  predicate JustHolds(batch: nat, block: nat, g: nat) {
    g * block - block < batch <= g * block
  }

  /** With `g` the number of blocks that the batch needs, a launch has that many modulo 2^32, and
      none at all when rounding the batch up passes 2^64. */
  lemma LaunchSizeExactly(batch: u64, block: u32, g: nat)
    requires block > 0 && JustHolds(batch, block, g)
    ensures LaunchSize(batch, block) ==
      (if batch + block > 0x1_0000_0000_0000_0000 then 0 else g % 0x1_0000_0000) * block
  {
    hide JustHolds;
    var sum: nat := batch + block - 1;
    if sum >= WORD {
      NoBlock(sum - WORD, block);
    } else {
      WholeBlocks(batch, block, g);
    }
  }

  lemma NoBlock(w: nat, block: nat)
    requires w < block
    ensures w / block == 0
  {
  }

  lemma WholeBlocks(batch: nat, block: nat, g: nat)
    requires block > 0 && JustHolds(batch, block, g)
    ensures (batch + block - 1) / block == g
  {
    DivModUnique(batch + block - 1, block, g, batch + block - 1 - g * block);
  }

  /** Threads `0..size` in some order. */
  ghost predicate Schedule(order: seq<nat>, size: nat) {
    (forall tid :: 0 <= tid < size ==> tid in order) && (forall tid :: tid in order ==> tid < size)
  }

  /** Some thread of `order` inside the batch wins `nonce`. */
  ghost predicate WonBy(chunks: seq<Digest>, job: Job, start: u64, batch: nat, order: seq<nat>, nonce: u64)
    requires chunks != []
  {
    exists tid :: tid in order && tid < batch && nonce == ThreadNonce(start, tid) && Wins(chunks, job, nonce)
  }

  /** `w` is the least nonce won by the threads `order`, or the sentinel. */
  ghost predicate LeastWon(chunks: seq<Digest>, job: Job, start: u64, batch: nat, order: seq<nat>, w: u64)
    requires chunks != []
  {
    && (w == NO_WINNER || WonBy(chunks, job, start, batch, order, w))
    && forall nonce: u64 :: WonBy(chunks, job, start, batch, order, nonce) ==> w <= nonce
  }

  lemma LeastWonStep(chunks: seq<Digest>, job: Job, start: u64, batch: nat, order: seq<nat>, tid: nat, w: u64, w': u64)
    requires chunks != [] && LeastWon(chunks, job, start, batch, order, w)
    requires w' == if tid < batch && Wins(chunks, job, ThreadNonce(start, tid)) && ThreadNonce(start, tid) < w
      then ThreadNonce(start, tid) else w
    ensures LeastWon(chunks, job, start, batch, order + [tid], w')
  {
    hide Wins, ThreadNonce;
    assert tid in order + [tid];
    assert forall x :: x in order ==> x in order + [tid];
    forall nonce: u64 | WonBy(chunks, job, start, batch, order + [tid], nonce)
      ensures w' <= nonce
    {
      var x :| x in order + [tid] && x < batch && nonce == ThreadNonce(start, x) && Wins(chunks, job, nonce);
      if x in order {
        assert WonBy(chunks, job, start, batch, order, nonce);
      }
    }
    if w' != NO_WINNER && w' == w {
      assert WonBy(chunks, job, start, batch, order, w);
    }
  }

  /** The nonce is among the `n` from `start` on, counting on from zero after 2^64 - 1. */
  predicate InRange(start: u64, n: nat, nonce: u64) {
    start <= nonce < start + n || nonce + WORD < start + n
  }

  /** The nonces of the first `n` threads are the `n` from `start` on. */
  lemma ThreadsCoverRange(start: u64, n: nat, nonce: u64)
    requires n <= WORD
    ensures InRange(start, n, nonce) <==> exists tid :: 0 <= tid < n && ThreadNonce(start, tid) == nonce
  {
    if InRange(start, n, nonce) {
      var tid: int := if start <= nonce then nonce - start else nonce + WORD - start;
      assert ThreadNonce(start, tid) == nonce;
    }
  }

  /** How many nonces a launch searches. */
  function Searched(batch: u64, block: u32): (n: nat)
    requires block > 0
    ensures n <= batch < WORD
  {
    if batch < LaunchSize(batch, block) then batch else LaunchSize(batch, block)
  }

  lemma InSearched(start: u64, batch: u64, block: u32, nonce: u64)
    requires block > 0
    ensures var i := (nonce - start) % 0x1_0000_0000_0000_0000;
      InRange(start, Searched(batch, block), nonce) <==> i < batch && i < LaunchSize(batch, block)
  {
    hide LaunchSize;
  }

  /** For every block size and every thread order, the search returns the numerically least
      nonce that the host accepts among the first nonces of the batch, all of it when the launch
      covers it.  A winner equal to the sentinel, when it is the only one, reads as none. */
  method MineWithBlock(g: Gather, n: nat, block: u32, job: Job, start: u64, batch: u64, order: seq<nat>,
                       ghost gguf: seq<u8>, ghost ts: seq<Tensor>)
    returns (r: Option<u64>)
    requires GatherOf(g, gguf, ts) && n == |Chunks(gguf, ts)| > 0 && |g.bases| <= 0x8000_0000
    requires block > 0 && Schedule(order, LaunchSize(batch, block))
    ensures r.Some? ==> r.value != 0xFFFF_FFFF_FFFF_FFFF && Wins(Chunks(gguf, ts), job, r.value)
    ensures r.Some? ==>
      var i := (r.value - start) % 0x1_0000_0000_0000_0000; i < batch && i < LaunchSize(batch, block)
    ensures forall nonce: u64 | Wins(Chunks(gguf, ts), job, nonce) ::
      var i := (nonce - start) % 0x1_0000_0000_0000_0000;
      i < batch && i < LaunchSize(batch, block) ==>
        if r.Some? then r.value <= nonce else nonce == 0xFFFF_FFFF_FFFF_FFFF
  {
    hide Walk, SeedFold, PowFold, KernelWins, Wins, EraWords, ToWords, Chunks, LeastWon, InRange, Searched, LaunchSize;
    ghost var chunks := Chunks(gguf, ts);
    var winner := Launch(g, n, job, start, batch, order, gguf, ts);
    LeastInRange(chunks, job, start, batch, block, order, winner);
    forall nonce: u64 { InSearched(start, batch, block, nonce); }
    r := if winner == NO_WINNER then None else Some(winner);
  }

  lemma LeastInRange(chunks: seq<Digest>, job: Job, start: u64, batch: u64, block: u32, order: seq<nat>, w: u64)
    requires chunks != [] && block > 0 && Schedule(order, LaunchSize(batch, block))
    requires LeastWon(chunks, job, start, batch, order, w)
    ensures w == NO_WINNER || (InRange(start, Searched(batch, block), w) && Wins(chunks, job, w))
    ensures forall nonce: u64 | InRange(start, Searched(batch, block), nonce) && Wins(chunks, job, nonce) :: w <= nonce
  {
    hide Wins, InRange;
    forall nonce: u64
      ensures WonBy(chunks, job, start, batch, order, nonce)
        <==> InRange(start, Searched(batch, block), nonce) && Wins(chunks, job, nonce)
    {
      WonInRange(chunks, job, start, batch, block, order, nonce);
    }
  }

  lemma WonInRange(chunks: seq<Digest>, job: Job, start: u64, batch: u64, block: u32, order: seq<nat>, nonce: u64)
    requires chunks != [] && block > 0 && Schedule(order, LaunchSize(batch, block))
    ensures WonBy(chunks, job, start, batch, order, nonce)
      <==> InRange(start, Searched(batch, block), nonce) && Wins(chunks, job, nonce)
  {
    hide Wins, ThreadNonce, LaunchSize, InRange;
    ThreadsCoverRange(start, Searched(batch, block), nonce);
    if InRange(start, Searched(batch, block), nonce) && Wins(chunks, job, nonce) {
      var tid :| 0 <= tid < Searched(batch, block) && ThreadNonce(start, tid) == nonce;
      assert tid in order;
    }
  }

  // Runs the threads of a launch one after the other, each lowering the winner.
  method Launch(g: Gather, n: nat, job: Job, start: u64, batch: u64, order: seq<nat>,
                ghost gguf: seq<u8>, ghost ts: seq<Tensor>)
    returns (winner: u64)
    requires GatherOf(g, gguf, ts) && n == |Chunks(gguf, ts)| > 0 && |g.bases| <= 0x8000_0000
    ensures LeastWon(Chunks(gguf, ts), job, start, batch, order, winner)
  {
    hide Walk, SeedFold, PowFold, KernelWins, Wins, EraWords, ToWords, Chunks;
    var p, t := EraWords(job.pph, job.h3), ToWords(job.target);
    ghost var chunks := Chunks(gguf, ts);
    winner := NO_WINNER;
    assert LeastWon(chunks, job, start, batch, order[..0], winner);
    hide LeastWon;
    for i := 0 to |order|
      invariant LeastWon(chunks, job, start, batch, order[..i], winner)
    {
      var tid := order[i];
      KernelAgrees(chunks, job, ThreadNonce(start, tid));
      var lowered := Thread(g, n, job.k, p, job.time, t, start, batch, tid, winner, gguf, ts);
      LeastWonStep(chunks, job, start, batch, order[..i], tid, winner, lowered);
      assert order[..i + 1] == order[..i] + [tid];
      winner := lowered;
    }
    assert order[..|order|] == order;
  }
}
