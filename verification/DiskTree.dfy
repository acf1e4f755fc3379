/** The Merkle tree on disk: every level appended to the file that the next level is
    computed from, through a buffered writer. */
module DiskTree {
  import opened Merkle

  /** A file of 32-byte records behind a buffered writer.  Readers see only `disk`. */
  class RecordFile {
    var disk: seq<Digest>
    var buffer: seq<Digest>
    const capacity: nat

    constructor (capacity: nat)
      ensures disk == [] && buffer == [] && this.capacity == capacity
    {
      this.capacity := capacity;
      disk, buffer := [], [];
    }

    ghost function Written(): seq<Digest>
      reads this
    {
      disk + buffer
    }

    method Write(d: Digest)
      modifies this
      ensures Written() == old(Written()) + [d] && old(disk) <= disk
    {
      if |buffer| >= capacity {
        disk, buffer := disk + buffer, [];
      }
      buffer := buffer + [d];
    }

    method Flush()
      modifies this
      ensures disk == old(Written()) == Written() && buffer == []
    {
      disk, buffer := disk + buffer, [];
    }

    /** Reads the record at a byte offset; the caller must know that it has reached the disk. */
    method ReadAt(off: nat) returns (d: Digest)
      requires off % 32 == 0 && off / 32 < |disk|
      ensures d == disk[off / 32]
    {
      d := disk[off / 32];
    }
  }

  /** Where a level lies in the file: its byte offset and its node count. */
  datatype Entry = Entry(off: nat, count: nat)
  {
    /** The record at the offset. */
    function First(): nat { off / 32 }
  }

  /** The level `h` steps above the leaves. */
  function LevelAt(blake: Blake, leaves: seq<Digest>, h: nat): (level: seq<Digest>)
    requires leaves != []
    ensures level != []
  {
    if h == 0 then leaves else Up(blake, LevelAt(blake, leaves, h - 1))
  }

  /** The records from the entry's offset on are level `h` of the tree. */
  ghost predicate Stored(blake: Blake, tree: seq<Digest>, leaves: seq<Digest>, at: Entry, h: nat)
    requires leaves != []
  {
    && at.off % 32 == 0 && at.First() + at.count <= |tree|
    && tree[at.First()..at.First() + at.count] == LevelAt(blake, leaves, h)
  }

  /** Every level up to the last entry is stored, the levels lie back to back from the start,
      and nothing follows the last one. */
  ghost predicate Laid(blake: Blake, tree: seq<Digest>, leaves: seq<Digest>, levels: seq<Entry>)
    requires leaves != []
  {
    && levels != [] && levels[0] == Entry(0, |leaves|)
    && (forall h :: 0 <= h < |levels| ==> Stored(blake, tree, leaves, levels[h], h))
    && (forall h :: 0 < h < |levels| ==> levels[h].off == levels[h - 1].off + levels[h - 1].count * 32)
    && var top := levels[|levels| - 1]; 32 * |tree| == top.off + top.count * 32
  }

  lemma UpSnoc(blake: Blake, level: seq<Digest>, q: nat)
    requires 2 * q < |level|
    ensures q < |Up(blake, level)|
    ensures Up(blake, level)[..q + 1] == Up(blake, level)[..q] + [HashPair(blake, level[2 * q], Right(level, 2 * q))]
  {
  }

  // Reads level `h` at the end of the file and appends the level above it.
  method AppendLevel(blake: Blake, file: RecordFile, at: Entry, ghost cur: seq<Digest>) returns (nextCount: nat)
    requires |cur| == at.count > 0
    requires at.off % 32 == 0 && at.First() + at.count == |file.Written()| && file.Written()[at.First()..] == cur
    modifies file
    ensures file.Written() == old(file.Written()) + Up(blake, cur) && nextCount == |Up(blake, cur)|
  {
    file.Flush();
    nextCount := 0;
    var pos, i := at.off, 0;
    ghost var up, before := Up(blake, cur), file.disk;
    hide Up, HashPair;
    while i < at.count
      invariant i == 2 * nextCount && i <= at.count + 1 && (i < at.count ==> pos == at.off + 32 * i)
      invariant before <= file.disk
      invariant file.Written() == before + up[..nextCount]
    {
      var left := file.ReadAt(pos);
      pos := pos + 32;
      var right := left;
      if i + 1 < at.count {
        right := file.ReadAt(pos);
        pos := pos + 32;
      }
      assert left == cur[i] && right == Right(cur, i);
      UpSnoc(blake, cur, nextCount);
      file.Write(HashPair(blake, left, right));
      nextCount := nextCount + 1;
      i := i + 2;
    }
    assert up[..nextCount] == up;
  }

  lemma StoredTop(blake: Blake, tree: seq<Digest>, leaves: seq<Digest>, levels: seq<Entry>)
    requires leaves != [] && Laid(blake, tree, leaves, levels)
    ensures var top, h := levels[|levels| - 1], |levels| - 1;
      && top.off % 32 == 0 && top.First() + top.count == |tree| && top.count > 0
      && tree[top.First()..] == LevelAt(blake, leaves, h)
  {
    var top, h := levels[|levels| - 1], |levels| - 1;
    assert Stored(blake, tree, leaves, top, h);
    assert tree[top.First()..] == tree[top.First()..top.First() + top.count];
  }

  lemma StoredGrows(blake: Blake, tree: seq<Digest>, more: seq<Digest>, leaves: seq<Digest>, at: Entry, h: nat)
    requires leaves != [] && Stored(blake, tree, leaves, at, h)
    ensures Stored(blake, tree + more, leaves, at, h)
  {
    hide LevelAt;
    assert (tree + more)[at.First()..at.First() + at.count] == tree[at.First()..at.First() + at.count];
  }

  lemma LaidGrows(blake: Blake, tree: seq<Digest>, leaves: seq<Digest>, levels: seq<Entry>)
    requires leaves != [] && Laid(blake, tree, leaves, levels)
    ensures var h, top := |levels|, levels[|levels| - 1];
      var next := LevelAt(blake, leaves, h);
      Laid(blake, tree + next, leaves, levels + [Entry(top.off + top.count * 32, |next|)])
  {
    hide LevelAt;
    var h, top := |levels|, levels[|levels| - 1];
    var next := LevelAt(blake, leaves, h);
    var tree', at := tree + next, Entry(top.off + top.count * 32, |next|);
    StoredTop(blake, tree, leaves, levels);
    assert at.First() == |tree| && tree'[|tree|..|tree| + |next|] == next;
    forall g | 0 <= g < h ensures Stored(blake, tree', leaves, levels[g], g) {
      StoredGrows(blake, tree, next, leaves, levels[g], g);
    }
  }

  lemma RootStep(blake: Blake, level: seq<Digest>)
    requires level != [] && Depth(|level|) > 0
    ensures Root(blake, Up(blake, level)) == Root(blake, level)
    ensures |level| > 1 && Depth(|Up(blake, level)|) == Depth(|level|) - 1
  {
  }

  lemma {:induction false} LevelRoot(blake: Blake, leaves: seq<Digest>, h: nat)
    requires leaves != [] && h <= Depth(|leaves|)
    ensures Root(blake, LevelAt(blake, leaves, h)) == Root(blake, leaves)
    ensures Depth(|LevelAt(blake, leaves, h)|) == Depth(|leaves|) - h
  {
    hide Up;
    if h == 0 {
      assert LevelAt(blake, leaves, 0) == leaves;
    } else {
      LevelRoot(blake, leaves, h - 1);
      RootStep(blake, LevelAt(blake, leaves, h - 1));
    }
  }

  /** The level loop: from a file that holds the leaves to a file that holds every level of
      their tree, although each level is read from the file the next is appended to. */
  method Finalize(blake: Blake, file: RecordFile, ghost leaves: seq<Digest>, n: nat)
    returns (rt: Digest, levels: seq<Entry>)
    requires |leaves| == n > 0 && file.Written() == leaves
    modifies file
    ensures Laid(blake, file.disk, leaves, levels) && |levels| == Depth(n) + 1
    ensures rt == Root(blake, leaves)
  {
    levels := [Entry(0, n)];
    assert Laid(blake, leaves, leaves, levels);
    LevelRoot(blake, leaves, 0);
    hide Laid, Stored, LevelAt, Root, Depth;
    var last := levels[0];
    while last.count != 1
      invariant levels != [] && last == levels[|levels| - 1] && |levels| <= Depth(n) + 1
      invariant Laid(blake, file.Written(), leaves, levels)
      decreases Depth(n) + 1 - |levels|
    {
      last := RaiseLevel(blake, file, leaves, levels);
      levels := levels + [last];
    }
    file.Flush();
    StoredTop(blake, file.disk, leaves, levels);
    LevelTop(blake, leaves, |levels| - 1);
    rt := file.ReadAt(last.off);
  }

  // One turn of the level loop.
  method RaiseLevel(blake: Blake, file: RecordFile, ghost leaves: seq<Digest>, levels: seq<Entry>)
    returns (next: Entry)
    requires leaves != [] && levels != [] && Laid(blake, file.Written(), leaves, levels)
    requires |levels| <= Depth(|leaves|) + 1 && levels[|levels| - 1].count != 1
    modifies file
    ensures Laid(blake, file.Written(), leaves, levels + [next]) && |levels| <= Depth(|leaves|)
  {
    hide *;
    ghost var tree, cur := file.Written(), LevelAt(blake, leaves, |levels| - 1);
    BelowTop(blake, tree, leaves, levels);
    var last := levels[|levels| - 1];
    var nextCount := AppendLevel(blake, file, last, cur);
    next := Entry(last.off + last.count * 32, nextCount);
  }

  lemma BelowTop(blake: Blake, tree: seq<Digest>, leaves: seq<Digest>, levels: seq<Entry>)
    requires leaves != [] && Laid(blake, tree, leaves, levels)
    requires |levels| <= Depth(|leaves|) + 1 && levels[|levels| - 1].count != 1
    ensures var top, cur := levels[|levels| - 1], LevelAt(blake, leaves, |levels| - 1);
      && |cur| == top.count > 0 && top.off % 32 == 0 && top.First() + top.count == |tree| && tree[top.First()..] == cur
      && Laid(blake, tree + Up(blake, cur), leaves, levels + [Entry(top.off + top.count * 32, |Up(blake, cur)|)])
    ensures levels != [] && |levels| <= Depth(|leaves|)
  {
    StoredTop(blake, tree, leaves, levels);
    LevelRoot(blake, leaves, |levels| - 1);
    LaidGrows(blake, tree, leaves, levels);
    hide Laid, Stored, Root, Up;
  }

  lemma LevelTop(blake: Blake, leaves: seq<Digest>, h: nat)
    requires leaves != [] && h <= Depth(|leaves|) && |LevelAt(blake, leaves, h)| == 1
    ensures h == Depth(|leaves|) && LevelAt(blake, leaves, h) == [Root(blake, leaves)]
  {
    LevelRoot(blake, leaves, h);
  }

  lemma ByteOffset(off: nat, s: nat)
    requires off % 32 == 0
    ensures (off + s * 32) % 32 == 0 && (off + s * 32) / 32 == off / 32 + s
  {
  }

  lemma ReadStep(blake: Blake, tree: seq<Digest>, levels: seq<Entry>, leaves: seq<Digest>, h: nat, i: nat)
    requires leaves != [] && Laid(blake, tree, leaves, levels) && |levels| == Depth(|leaves|) + 1
    requires h < |levels| - 1 && i < |LevelAt(blake, leaves, h)|
    ensures i < levels[h].count && i / 2 < |LevelAt(blake, leaves, h + 1)|
    ensures var at := levels[h].off + SiblingIndex(i, levels[h].count) * 32;
      && at % 32 == 0 && at / 32 < |tree|
      && Path(blake, LevelAt(blake, leaves, h), i)
         == [tree[at / 32]] + Path(blake, LevelAt(blake, leaves, h + 1), i / 2)
  {
    hide Up, SiblingIndex, Path, Depth, Root, Laid, Stored;
    LevelFacts(blake, tree, levels, leaves, h);
    PathStep(blake, LevelAt(blake, leaves, h), i);
    var s := SiblingIndex(i, levels[h].count);
    StoredRead(blake, tree, leaves, levels[h], h, s);
    ByteOffset(levels[h].off, s);
  }

  lemma LevelFacts(blake: Blake, tree: seq<Digest>, levels: seq<Entry>, leaves: seq<Digest>, h: nat)
    requires leaves != [] && Laid(blake, tree, leaves, levels) && |levels| == Depth(|leaves|) + 1 && h < |levels| - 1
    ensures Stored(blake, tree, leaves, levels[h], h) && Depth(|LevelAt(blake, leaves, h)|) > 0
    ensures |LevelAt(blake, leaves, h)| == levels[h].count
  {
    hide Up, Root;
    LevelRoot(blake, leaves, h);
  }

  lemma PathStep(blake: Blake, level: seq<Digest>, i: nat)
    requires i < |level| && Depth(|level|) > 0
    ensures i / 2 < |Up(blake, level)|
    ensures Path(blake, level, i) == [level[SiblingIndex(i, |level|)]] + Path(blake, Up(blake, level), i / 2)
  {
  }

  lemma StoredRead(blake: Blake, tree: seq<Digest>, leaves: seq<Digest>, at: Entry, h: nat, s: nat)
    requires leaves != [] && Stored(blake, tree, leaves, at, h) && s < at.count
    ensures at.off % 32 == 0 && at.First() + s < |tree| && |LevelAt(blake, leaves, h)| == at.count
    ensures tree[at.First() + s] == LevelAt(blake, leaves, h)[s]
  {
    hide LevelAt;
    assert tree[at.First()..at.First() + at.count][s] == tree[at.First() + s];
  }

  /** The path read from the stored levels is the in-memory path, for every leaf. */
  method PathFromDisk(blake: Blake, tree: seq<Digest>, levels: seq<Entry>, off: nat, ghost leaves: seq<Digest>)
    returns (path: seq<Digest>)
    requires off < |leaves| && Laid(blake, tree, leaves, levels) && |levels| == Depth(|leaves|) + 1
    ensures path == Path(blake, leaves, off)
  {
    path := [];
    var idx: nat := off;
    hide Up, Root, Path, SiblingIndex, Depth;
    for h := 0 to |levels| - 1
      invariant idx < |LevelAt(blake, leaves, h)|
      invariant path + Path(blake, LevelAt(blake, leaves, h), idx) == Path(blake, leaves, off)
    {
      ReadStep(blake, tree, levels, leaves, h, idx);
      var readIdx := SiblingIndex(idx, levels[h].count);
      path := path + [tree[(levels[h].off + readIdx * 32) / 32]];
      idx := idx / 2;
    }
    LevelRoot(blake, leaves, |levels| - 1);
  }
}
