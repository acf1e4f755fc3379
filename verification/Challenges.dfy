/** What the Fiat-Shamir challenges commit to, seen through hashes that show what they read. */
module Challenges {
  import opened Digits
  import opened Words
  import opened Merkle
  import opened Pom
  import opened Possession

  /** A hash that returns the 32 bytes of a transcript from `o` on, and of a seed with an index
      its first 32 bytes. */
  function Window(o: nat): Blake
    requires o <= 72
  {
    (x: seq<u8>) => if |x| == 104 then x[o..o + 32] else if |x| == 40 then x[..32] else seq(32, _ => 0)
  }

  /** A hash that returns the last eight bytes of a seed with an index. */
  function LastEight(): Blake {
    (x: seq<u8>) => if |x| == 40 then x[32..] + seq(24, _ => 0) else seq(32, _ => 0)
  }

  lemma WindowShows(job: Job, nonce: u64, traceRoot: Digest, powValue: Digest, j: nat, o: nat)
    requires job.k > 0 && o <= 72
    ensures Challenge(Window(o), job, nonce, traceRoot, powValue, j)
      == FromLe8(Transcript(job, nonce, traceRoot, powValue)[o..o + 8]) % job.k
  {
    hide FromLe8, ToLe8, Transcript;
    var t := Transcript(job, nonce, traceRoot, powValue);
    var seed := Window(o)(t);
    assert Window(o)(seed + ToLe8(j)) == seed;
    assert seed[..8] == t[o..o + 8];
  }

  /** The transcript holds the pre-proof-of-work hash, the nonce, the trace root and the
      proof-of-work value, at bytes 0, 32, 40 and 72, and nothing else. */
  lemma ChallengesReadTranscript(job: Job, nonce: u64, traceRoot: Digest, powValue: Digest, j: nat)
    requires job.k > 0
    ensures Challenge(Window(0), job, nonce, traceRoot, powValue, j) == FromLe8(job.pph[..8]) % job.k
    ensures Challenge(Window(32), job, nonce, traceRoot, powValue, j) == nonce % job.k
    ensures Challenge(Window(40), job, nonce, traceRoot, powValue, j) == FromLe8(traceRoot[..8]) % job.k
    ensures Challenge(Window(72), job, nonce, traceRoot, powValue, j) == FromLe8(powValue[..8]) % job.k
  {
    hide FromLe8, ToLe8, Challenge, Window;
    var t := Transcript(job, nonce, traceRoot, powValue);
    WindowShows(job, nonce, traceRoot, powValue, j, 0);
    WindowShows(job, nonce, traceRoot, powValue, j, 32);
    WindowShows(job, nonce, traceRoot, powValue, j, 40);
    WindowShows(job, nonce, traceRoot, powValue, j, 72);
    assert t[0..8] == job.pph[..8] && t[32..40] == ToLe8(nonce);
    assert t[40..48] == traceRoot[..8] && t[72..80] == powValue[..8];
    Le8RoundTrip(nonce);
  }

  /** The `j`-th challenge hashes the seed with `j`. */
  lemma ChallengesReadIndex(job: Job, nonce: u64, traceRoot: Digest, powValue: Digest, j: u64)
    requires job.k > 0
    ensures Challenge(LastEight(), job, nonce, traceRoot, powValue, j) == j % job.k
  {
    hide FromLe8, ToLe8, Transcript;
    var seed := LastEight()(Transcript(job, nonce, traceRoot, powValue));
    assert (seed + ToLe8(j))[32..] == ToLe8(j);
    assert LastEight()(seed + ToLe8(j))[..8] == ToLe8(j);
    Le8RoundTrip(j);
  }

  /** Two proofs that differ in hash, nonce, trace root or value draw their challenges from
      different seeds, unless their transcripts collide: the opened steps are not known before
      the trace is committed. */
  lemma TranscriptBinds(blake: Blake, s: iset<Bytes>, job: Job, nonce: u64, root: Digest, value: Digest,
                        job': Job, nonce': u64, root': Digest, value': Digest)
    requires CollisionFree(blake, s)
    requires Transcript(job, nonce, root, value) in s && Transcript(job', nonce', root', value') in s
    requires blake(Transcript(job, nonce, root, value)) == blake(Transcript(job', nonce', root', value'))
    ensures job.pph == job'.pph && nonce == nonce' && root == root' && value == value'
  {
    hide FromLe8, ToLe8;
    var t, t' := Transcript(job, nonce, root, value), Transcript(job', nonce', root', value');
    assert t == t';
    assert t[..32] == job.pph && t'[..32] == job'.pph;
    assert t[32..40] == ToLe8(nonce) && t'[32..40] == ToLe8(nonce');
    assert t[40..72] == root && t'[40..72] == root';
    assert t[72..] == value && t'[72..] == value';
    Le8RoundTrip(nonce);
    Le8RoundTrip(nonce');
  }
}
