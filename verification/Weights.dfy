/** The canonical chunk layout of a model file, the host index over it, and the gather
    tables the GPU walks. */
module Weights {
  import opened Words
  import opened Merkle
  import opened Pom
  import opened DiskTree
  import opened Wrappers

  /** A tensor of the name-sorted list: where its raw bytes lie in the model file. */
  datatype Tensor = Tensor(offset: nat, size: nat)

  /** The first chunk of a tensor and its place in the model file. */
  datatype Segment = Segment(start: nat, fileOff: nat)

  predicate Fits(gguf: seq<u8>, ts: seq<Tensor>) {
    forall i :: 0 <= i < |ts| ==> ts[i].offset + ts[i].size <= |gguf|
  }

  function TensorChunks(gguf: seq<u8>, t: Tensor): (cs: seq<Digest>)
    requires t.offset + t.size <= |gguf|
    ensures |cs| == t.size / 32
  {
    seq(t.size / 32, c requires 0 <= c < t.size / 32 => gguf[t.offset + c * 32..t.offset + c * 32 + 32])
  }

  /** The canonical chunk list: the full 32-byte chunks of every tensor in turn. */
  function Chunks(gguf: seq<u8>, ts: seq<Tensor>): seq<Digest>
    requires Fits(gguf, ts)
  {
    if ts == [] then []
    else Chunks(gguf, ts[..|ts| - 1]) + TensorChunks(gguf, ts[|ts| - 1])
  }

  /** One segment per tensor that holds a full chunk. */
  function Table(gguf: seq<u8>, ts: seq<Tensor>): seq<Segment>
    requires Fits(gguf, ts)
  {
    if ts == [] then []
    else
      var init, t := ts[..|ts| - 1], ts[|ts| - 1];
      Table(gguf, init) + if t.size < 32 then [] else [Segment(|Chunks(gguf, init)|, t.offset)]
  }

  function TensorWords(gguf: seq<u8>, t: Tensor): (ws: seq<u64>)
    requires t.offset + t.size <= |gguf|
    ensures |ws| == t.size / 8
  {
    seq(t.size / 8, w requires 0 <= w < t.size / 8 => FromLe8(gguf[t.offset + 8 * w..t.offset + 8 * w + 8]))
  }

  /** The resident word array of each tensor that holds a full chunk. */
  function Bases(gguf: seq<u8>, ts: seq<Tensor>): (bs: seq<seq<u64>>)
    requires Fits(gguf, ts)
    ensures |bs| == |Table(gguf, ts)|
  {
    if ts == [] then []
    else
      var init, t := ts[..|ts| - 1], ts[|ts| - 1];
      Bases(gguf, init) + if t.size < 32 then [] else [TensorWords(gguf, t)]
  }

  // ---- the table finds every chunk ----

  /** Segment `j` is the last one that starts at or before `off`. */
  predicate Covers(table: seq<Segment>, off: nat, j: nat) {
    j < |table| && table[j].start <= off && (j + 1 < |table| ==> off < table[j + 1].start)
  }

  predicate Ascending(table: seq<Segment>, n: nat) {
    && (forall i, j :: 0 <= i < j < |table| ==> table[i].start < table[j].start)
    && (forall i :: 0 <= i < |table| ==> table[i].start < n)
    && (n > 0 ==> table != [] && table[0].start == 0)
  }

  lemma {:induction false} TableAscends(gguf: seq<u8>, ts: seq<Tensor>)
    requires Fits(gguf, ts)
    ensures Ascending(Table(gguf, ts), |Chunks(gguf, ts)|)
  {
    hide TensorChunks;
    if ts == [] {
    } else {
      TableAscends(gguf, ts[..|ts| - 1]);
    }
  }

  /** The four words the kernel reads for chunk `local` of a tensor. */
  function GatherQuad(base: seq<u64>, local: nat): Quad
    requires 4 * local + 4 <= |base|
  {
    [base[4 * local], base[4 * local + 1], base[4 * local + 2], base[4 * local + 3]]
  }

  lemma SubSlice(s: seq<u8>, o: nat, n: nat, a: nat, b: nat)
    requires a <= b <= n && o + n <= |s|
    ensures s[o..o + n][a..b] == s[o + a..o + b]
  {
    var u, v := s[o..o + n][a..b], s[o + a..o + b];
    assert |u| == |v|;
    assert forall i :: 0 <= i < b - a ==> u[i] == v[i];
  }

  lemma TensorQuad(gguf: seq<u8>, t: Tensor, c: nat)
    requires t.offset + t.size <= |gguf| && c < t.size / 32
    ensures 4 * c + 4 <= |TensorWords(gguf, t)|
    ensures GatherQuad(TensorWords(gguf, t), c) == ToWords(TensorChunks(gguf, t)[c])
    ensures TensorChunks(gguf, t)[c] == gguf[t.offset + c * 32..t.offset + c * 32 + 32]
  {
    hide FromLe8;
    var o := t.offset + c * 32;
    var ws := TensorWords(gguf, t);
    assert ws[4 * c] == FromLe8(gguf[o..o + 8]) && ws[4 * c + 1] == FromLe8(gguf[o + 8..o + 16]);
    assert ws[4 * c + 2] == FromLe8(gguf[o + 16..o + 24]) && ws[4 * c + 3] == FromLe8(gguf[o + 24..o + 32]);
    SubSlice(gguf, o, 32, 0, 8);
    SubSlice(gguf, o, 32, 8, 16);
    SubSlice(gguf, o, 32, 16, 24);
    SubSlice(gguf, o, 32, 24, 32);
  }

  /** Segment `j` locates chunk `off`: in the file, and in the GPU's resident word arrays. */
  ghost predicate Locates(gguf: seq<u8>, ts: seq<Tensor>, off: nat, j: nat)
    requires Fits(gguf, ts) && off < |Chunks(gguf, ts)| && j < |Table(gguf, ts)|
  {
    var s, base, chunk := Table(gguf, ts)[j], Bases(gguf, ts)[j], Chunks(gguf, ts)[off];
    && s.start <= off
    && s.fileOff + (off - s.start) * 32 + 32 <= |gguf|
    && gguf[s.fileOff + (off - s.start) * 32..s.fileOff + (off - s.start) * 32 + 32] == chunk
    && 4 * (off - s.start) + 4 <= |base|
    && GatherQuad(base, off - s.start) == ToWords(chunk)
  }

  lemma LastTensorLocates(gguf: seq<u8>, ts: seq<Tensor>, off: nat)
    requires Fits(gguf, ts) && ts != [] && |Chunks(gguf, ts[..|ts| - 1])| <= off < |Chunks(gguf, ts)|
    ensures |Table(gguf, ts)| > 0 && Locates(gguf, ts, off, |Table(gguf, ts)| - 1)
    ensures Table(gguf, ts)[|Table(gguf, ts)| - 1].start == |Chunks(gguf, ts[..|ts| - 1])|
  {
    hide TensorChunks, TensorWords, GatherQuad, ToWords;
    TensorQuad(gguf, ts[|ts| - 1], off - |Chunks(gguf, ts[..|ts| - 1])|);
  }

  lemma EarlierTensorLocates(gguf: seq<u8>, ts: seq<Tensor>, off: nat, j: nat)
    requires Fits(gguf, ts) && ts != [] && off < |Chunks(gguf, ts[..|ts| - 1])| && j < |Table(gguf, ts[..|ts| - 1])|
    requires Locates(gguf, ts[..|ts| - 1], off, j)
    ensures |Table(gguf, ts[..|ts| - 1])| <= |Table(gguf, ts)| && off < |Chunks(gguf, ts)| && Locates(gguf, ts, off, j)
  {
    hide TensorChunks, TensorWords, GatherQuad, ToWords;
  }

  /** The segment that covers a chunk index locates the chunk. */
  lemma {:induction false} CoveringSegmentLocates(gguf: seq<u8>, ts: seq<Tensor>, off: nat, j: nat)
    requires Fits(gguf, ts) && off < |Chunks(gguf, ts)| && Covers(Table(gguf, ts), off, j)
    ensures Locates(gguf, ts, off, j)
    decreases |ts|
  {
    hide TensorChunks, TensorWords, Locates;
    var init := ts[..|ts| - 1];
    TableAscends(gguf, ts);
    if off < |Chunks(gguf, init)| {
      CoveringSegmentLocates(gguf, init, off, j);
      EarlierTensorLocates(gguf, ts, off, j);
    } else {
      LastTensorLocates(gguf, ts, off);
    }
  }

  // ---- the host index ----

  datatype WeightIndex = WeightIndex(
    nChunks: nat,
    rt: Digest,
    gguf: seq<u8>,
    table: seq<Segment>,
    tree: seq<Digest>,
    levels: seq<Entry>)

  /** `index` is the index of the model whose tensors are `ts`. */
  ghost predicate IndexOf(blake: Blake, index: WeightIndex, ts: seq<Tensor>) {
    && Fits(index.gguf, ts)
    && var chunks := Chunks(index.gguf, ts);
    && index.nChunks == |chunks| > 0
    && index.rt == Root(blake, Leaves(blake, chunks))
    && index.table == Table(index.gguf, ts)
    && Laid(blake, index.tree, Leaves(blake, chunks), index.levels)
    && |index.levels| == Depth(|chunks|) + 1
  }

  lemma LeavesSnoc(blake: Blake, cs: seq<Digest>, c: Digest)
    ensures Leaves(blake, cs + [c]) == Leaves(blake, cs) + [blake(c)]
  {
  }

  // Hashes the full chunks of one tensor into the tree file.
  method WriteLeaves(blake: Blake, gguf: seq<u8>, t: Tensor, file: RecordFile, ghost before: seq<Digest>)
    requires t.offset + t.size <= |gguf| && file.Written() == Leaves(blake, before)
    modifies file
    ensures file.Written() == Leaves(blake, before + TensorChunks(gguf, t))
  {
    ghost var cs := TensorChunks(gguf, t);
    assert before + cs[..0] == before;
    for c := 0 to t.size / 32
      invariant file.Written() == Leaves(blake, before + cs[..c])
    {
      var at := t.offset + c * 32;
      file.Write(blake(gguf[at..at + 32]));
      LeavesSnoc(blake, before + cs[..c], cs[c]);
      assert before + cs[..c + 1] == before + cs[..c] + [cs[c]];
    }
    assert cs[..t.size / 32] == cs;
  }

  /** Builds the index of a model, or reports a tensor outside the file or a model without chunks. */
  method BuildIndex(blake: Blake, gguf: seq<u8>, ts: seq<Tensor>, bufferSize: nat) returns (r: Result<WeightIndex>)
    ensures r.Ok? <==> Fits(gguf, ts) && Chunks(gguf, ts) != []
    ensures r.Ok? ==> r.value.gguf == gguf && IndexOf(blake, r.value, ts)
  {
    var file := new RecordFile(bufferSize);
    var table, n := [], 0;
    assert Leaves(blake, []) == [];
    for a := 0 to |ts|
      invariant Fits(gguf, ts[..a]) && fresh(file)
      invariant file.Written() == Leaves(blake, Chunks(gguf, ts[..a]))
      invariant table == Table(gguf, ts[..a]) && n == |Chunks(gguf, ts[..a])|
    {
      var t := ts[a];
      if t.offset + t.size > |gguf| { return Err("tensor outside the file"); }
      ghost var before := Chunks(gguf, ts[..a]);
      SnocTensor(gguf, ts, a);
      var full := t.size / 32;
      if full > 0 {
        table := table + [Segment(n, t.offset)];
      }
      WriteLeaves(blake, gguf, t, file, before);
      n := n + full;
    }
    assert ts[..|ts|] == ts;
    if n == 0 { return Err("model produced 0 chunks"); }
    ghost var leaves := Leaves(blake, Chunks(gguf, ts));
    var rt, levels := Finalize(blake, file, leaves, n);
    r := Ok(WeightIndex(n, rt, gguf, table, file.disk, levels));
  }

  lemma SnocTensor(gguf: seq<u8>, ts: seq<Tensor>, a: nat)
    requires a < |ts| && Fits(gguf, ts[..a]) && ts[a].offset + ts[a].size <= |gguf|
    ensures Fits(gguf, ts[..a + 1])
    ensures Chunks(gguf, ts[..a + 1]) == Chunks(gguf, ts[..a]) + TensorChunks(gguf, ts[a])
    ensures Table(gguf, ts[..a + 1]) == Table(gguf, ts[..a])
              + if ts[a].size < 32 then [] else [Segment(|Chunks(gguf, ts[..a])|, ts[a].offset)]
    ensures Bases(gguf, ts[..a + 1]) == Bases(gguf, ts[..a])
              + if ts[a].size < 32 then [] else [TensorWords(gguf, ts[a])]
  {
    hide TensorChunks, TensorWords;
    assert ts[..a + 1][..a] == ts[..a] && ts[..a + 1][a] == ts[a];
  }

  /** The number of segments that start at or before `off`, by bisection. */
  method PartitionPoint(table: seq<Segment>, off: nat) returns (p: nat)
    requires forall i, j :: 0 <= i < j < |table| ==> table[i].start < table[j].start
    ensures p <= |table|
    ensures forall i :: 0 <= i < p ==> table[i].start <= off
    ensures forall i :: p <= i < |table| ==> off < table[i].start
  {
    var lo, hi := 0, |table|;
    while lo < hi
      invariant 0 <= lo <= hi <= |table|
      invariant forall i :: 0 <= i < lo ==> table[i].start <= off
      invariant forall i :: hi <= i < |table| ==> off < table[i].start
    {
      var mid := lo + (hi - lo) / 2;
      if table[mid].start <= off { lo := mid + 1; } else { hi := mid; }
    }
    p := lo;
  }

  /** Reads the words of canonical chunk `off` from the model file. */
  method ReadChunk(blake: Blake, index: WeightIndex, off: nat, ghost ts: seq<Tensor>) returns (w: Quad)
    requires IndexOf(blake, index, ts) && off < index.nChunks
    ensures w == ToWords(Chunks(index.gguf, ts)[off])
  {
    TableAscends(index.gguf, ts);
    var p := PartitionPoint(index.table, off);
    var j := p - 1;
    CoveringSegmentLocates(index.gguf, ts, off, j);
    var s := index.table[j];
    var at := s.fileOff + (off - s.start) * 32;
    w := ToWords(index.gguf[at..at + 32]);
  }

  /** The inclusion path of chunk `off`, read from the tree file. */
  method MerklePath(blake: Blake, index: WeightIndex, off: nat, ghost ts: seq<Tensor>) returns (path: seq<Digest>)
    requires IndexOf(blake, index, ts) && off < index.nChunks
    ensures path == Path(blake, Leaves(blake, Chunks(index.gguf, ts)), off)
  {
    path := PathFromDisk(blake, index.tree, index.levels, off, Leaves(blake, Chunks(index.gguf, ts)));
  }
}
