/** The watcher as the source keeps it: the entry list with an outpoint set and a
    block-hash index updated beside it.  Each method is the index-free step. */
module EscrowIndexed {
  import opened Wrappers
  import opened Escrow

  function Outpoints(entries: seq<Entry>): set<Outpoint> {
    set e | e in entries :: e.outpoint
  }

  /** The ascending positions of the entries of one block. */
  function Positions(entries: seq<Entry>, h: string): (p: seq<nat>)
    ensures forall i :: i in p <==> 0 <= i < |entries| && entries[i].blockHash == h
  {
    if entries == [] then []
    else
      var l := |entries| - 1;
      assert forall i :: 0 <= i < l ==> entries[i] == entries[..l][i];
      Positions(entries[..l], h) + if entries[l].blockHash == h then [l] else []
  }

  /** The index lists, for every non-empty block hash that occurs, exactly the positions of its entries. */
  ghost predicate Indexes(index: map<string, seq<nat>>, entries: seq<Entry>) {
    && (forall h :: h in index <==> h != "" && Positions(entries, h) != [])
    && (forall h :: h in index ==> index[h] == Positions(entries, h))
  }

  /** `block_index.entry(h).or_default().push(i)`. */
  function Push(index: map<string, seq<nat>>, h: string, i: nat): map<string, seq<nat>> {
    index[h := (if h in index then index[h] else []) + [i]]
  }

  lemma PositionsSnoc(entries: seq<Entry>, e: Entry, h: string)
    ensures Positions(entries + [e], h) == Positions(entries, h) + if e.blockHash == h then [|entries|] else []
  {
    assert (entries + [e])[..|entries|] == entries;
  }

  lemma IndexesSnoc(index: map<string, seq<nat>>, entries: seq<Entry>, e: Entry)
    requires Indexes(index, entries)
    ensures Indexes(if e.blockHash == "" then index else Push(index, e.blockHash, |entries|), entries + [e])
  {
    hide Positions;
    forall h
      ensures Positions(entries + [e], h) == Positions(entries, h) + if e.blockHash == h then [|entries|] else []
    {
      PositionsSnoc(entries, e, h);
    }
  }

  // Entries may change in place as long as no block hash does.
  lemma {:induction false} PositionsSame(a: seq<Entry>, b: seq<Entry>, h: string)
    requires |a| == |b| && forall i :: 0 <= i < |a| ==> a[i].blockHash == b[i].blockHash
    ensures Positions(a, h) == Positions(b, h)
  {
    if a == [] {
    } else {
      PositionsSame(a[..|a| - 1], b[..|a| - 1], h);
    }
  }

  lemma IndexesSame(index: map<string, seq<nat>>, a: seq<Entry>, b: seq<Entry>)
    requires Indexes(index, a)
    requires |a| == |b| && forall i :: 0 <= i < |a| ==> a[i].blockHash == b[i].blockHash
    ensures Indexes(index, b)
  {
    forall h ensures Positions(a, h) == Positions(b, h) {
      PositionsSame(a, b, h);
    }
  }

  lemma {:induction false} CompactSame(entries: seq<Entry>)
    ensures |Compact(entries)| <= |entries|
    ensures |Compact(entries)| == |entries| ==> Compact(entries) == entries
    decreases |entries|
  {
    if entries == [] {
    } else {
      CompactSame(entries[..|entries| - 1]);
    }
  }

  lemma SlashMore(entries: seq<Entry>, reds: seq<string>, h: string)
    ensures SlashScan(SlashScan(entries, reds), [h]) == SlashScan(entries, reds + [h])
  {
    forall i | 0 <= i < |entries|
      ensures SlashOne(SlashOne(entries[i], reds), [h]) == SlashOne(entries[i], reds + [h])
    {
    }
  }

  lemma SlashNothing(entries: seq<Entry>, h: string)
    requires h == "" || Positions(entries, h) == []
    ensures SlashScan(entries, [h]) == entries
  {
    forall i | 0 <= i < |entries| ensures SlashOne(entries[i], [h]) == entries[i] {
      assert i in Positions(entries, h) <==> entries[i].blockHash == h;
    }
  }

  lemma OutpointsSame(a: seq<Entry>, b: seq<Entry>)
    requires |a| == |b| && forall i :: 0 <= i < |a| ==> a[i].outpoint == b[i].outpoint
    ensures Outpoints(a) == Outpoints(b)
  {
    forall o | o in Outpoints(a) ensures o in Outpoints(b) {
      var i :| 0 <= i < |a| && a[i].outpoint == o;
      assert b[i] in b;
    }
    forall o | o in Outpoints(b) ensures o in Outpoints(a) {
      var i :| 0 <= i < |b| && b[i].outpoint == o;
      assert a[i] in a;
    }
  }

  lemma FindsTracked(entries: seq<Entry>, o: Outpoint)
    ensures o in Outpoints(entries) <==> Find(entries, o).Some?
  {
    if Find(entries, o).Some? {
      assert entries[Find(entries, o).value] in entries;
    }
  }

  class EscrowWatcher {
    var entries: seq<Entry>
    var pendingTxid: Option<string>
    var pendingIndex: Option<nat>
    var lastDaa: nat
    var sinceCompact: nat
    var outpointSet: set<Outpoint>
    var blockIndex: map<string, seq<nat>>
    const script: string

    ghost predicate Valid()
      reads this
    {
      outpointSet == Outpoints(entries) && Indexes(blockIndex, entries)
    }

    /** The state without the indexes. */
    ghost function Now(): View
      reads this
    {
      View(entries, pendingTxid, pendingIndex, lastDaa, sinceCompact)
    }

    constructor (script: string, saved: seq<Entry>)
      ensures Valid() && Now() == View(saved, None, None, 0, 0) && this.script == script
    {
      this.script := script;
      entries, pendingTxid, pendingIndex, lastDaa, sinceCompact := saved, None, None, 0, 0;
      new;
      RebuildIndexes();
    }

    method RebuildIndexes()
      modifies this`outpointSet, this`blockIndex
      ensures Valid()
    {
      outpointSet, blockIndex := {}, map[];
      for i := 0 to |entries|
        invariant outpointSet == Outpoints(entries[..i]) && Indexes(blockIndex, entries[..i])
      {
        var e := entries[i];
        assert entries[..i + 1] == entries[..i] + [e];
        IndexesSnoc(blockIndex, entries[..i], e);
        outpointSet := outpointSet + {e.outpoint};
        if e.blockHash != "" {
          blockIndex := Push(blockIndex, e.blockHash, i);
        }
      }
      assert entries[..|entries|] == entries;
    }

    method Retain()
      modifies this`entries
      ensures entries == Compact(old(entries))
    {
      var kept: seq<Entry> := [];
      for i := 0 to |entries|
        invariant kept == Compact(entries[..i])
      {
        assert entries[..i + 1][..i] == entries[..i];
        if !entries[i].claimed && !entries[i].slashed { kept := kept + [entries[i]]; }
      }
      assert entries[..|entries|] == entries;
      entries := kept;
    }

    method CompactEntries()
      requires Valid()
      modifies this`entries, this`outpointSet, this`blockIndex
      ensures Valid() && entries == Compact(old(entries))
    {
      var before := |entries|;
      Retain();
      if |entries| != before {
        RebuildIndexes();
      } else {
        CompactSame(old(entries));
      }
    }

    /** Slashes through the index; the result is that of scanning every entry. */
    method SlashByIndex(reds: seq<string>)
      requires Valid()
      modifies this`entries
      ensures Valid() && entries == SlashScan(old(entries), reds)
    {
      ghost var start := entries;
      for r := 0 to |reds|
        invariant entries == SlashScan(start, reds[..r]) && Indexes(blockIndex, entries)
      {
        assert reds[..r + 1] == reds[..r] + [reds[r]];
        ghost var now := entries;
        SlashMore(start, reds[..r], reds[r]);
        if reds[r] in blockIndex {
          SlashPositions(blockIndex[reds[r]], reds[r]);
        } else {
          SlashNothing(now, reds[r]);
        }
        IndexesSame(blockIndex, now, entries);
      }
      assert reds[..|reds|] == reds;
      OutpointsSame(start, entries);
    }

    method SlashPositions(positions: seq<nat>, h: string)
      requires h != "" && forall i :: i in positions <==> 0 <= i < |entries| && entries[i].blockHash == h
      modifies this`entries
      ensures entries == SlashScan(old(entries), [h])
    {
      ghost var start := entries;
      for k := 0 to |positions|
        invariant |entries| == |start|
        invariant forall j :: 0 <= j < |start| ==>
          entries[j] == if j in positions[..k] then SlashOne(start[j], [h]) else start[j]
      {
        var i := positions[k];
        assert positions[..k + 1] == positions[..k] + [i];
        assert i in positions && start[i].blockHash == h;
        var e := entries[i];
        if !e.claimed && !e.slashed && !e.isInference && e.blockHash != "" {
          entries := entries[i := e.(slashed := true)];
        }
      }
      assert positions[..|positions|] == positions;
    }

    method TrackCoinbase(txid: string, hash: string, daa: nat, outputs: seq<Output>)
      requires Valid()
      modifies this`entries, this`outpointSet, this`blockIndex
      ensures Valid() && entries == Track(old(entries), txid, hash, daa, outputs, script, |outputs|)
    {
      ghost var start := entries;
      for k := 0 to |outputs|
        invariant Valid() && entries == Track(start, txid, hash, daa, outputs, script, k)
      {
        var key := Outpoint(txid, k);
        FindsTracked(entries, key);
        if Ours(outputs[k], script) && key !in outpointSet {
          PushEntry(FreshEntry(txid, hash, daa, k, outputs[k].amount));
        }
      }
    }

    method PushEntry(e: Entry)
      requires Valid()
      modifies this`entries, this`outpointSet, this`blockIndex
      ensures Valid() && entries == old(entries) + [e]
    {
      var idx := |entries|;
      IndexesSnoc(blockIndex, entries, e);
      entries := entries + [e];
      outpointSet := outpointSet + {e.outpoint};
      if e.blockHash != "" {
        blockIndex := Push(blockIndex, e.blockHash, idx);
      }
    }

    method FindClaimNow(daa: nat) returns (claim: Option<ClaimTx>)
      requires Valid()
      modifies this`pendingTxid, this`pendingIndex
      ensures Valid() && (Now(), claim) == FindClaim(old(Now()), daa)
    {
      if pendingTxid.Some? { return None; }
      var chosen := Chosen(entries, daa);
      if chosen.None? { return None; }
      claim := BuildClaim(entries[chosen.value]);
      if claim.Some? {
        pendingIndex := Some(claim.value.spends.index);
        pendingTxid := Some(claim.value.spends.txid);
      }
    }

    /** One block, with the indexes: the step of the index-free system. */
    method HandleBlockAdded(b: Block) returns (claim: Option<ClaimTx>)
      requires Valid()
      modifies this
      ensures Valid() && (Now(), claim) == HandleBlock(old(Now()), b, script)
    {
      if b.daa.None? { return None; }
      lastDaa := b.daa.value;
      sinceCompact := sinceCompact + 1;
      if sinceCompact >= COMPACT_EVERY {
        sinceCompact := 0;
        CompactEntries();
      }
      if b.verbose.Some? {
        SlashByIndex(b.verbose.value.reds);
      }
      var cb := Coinbase(b.txs);
      if cb.None? || cb.value.txid.None? || cb.value.txid.value == "" { return None; }
      TrackCoinbase(cb.value.txid.value, BlockHash(b), b.daa.value, cb.value.outputs);
      claim := FindClaimNow(b.daa.value);
    }

    method OnSubmitResponse(error: Option<string>)
      requires Valid()
      modifies this
      ensures Valid() && Now() == OnResponse(old(Now()), error)
    {
      hide Contains, Positions;
      if pendingTxid.None? { return; }
      var o := Outpoint(pendingTxid.value, if pendingIndex.Some? then pendingIndex.value else 1);
      pendingTxid, pendingIndex := None, None;
      var at := Find(entries, o);
      if at.None? { return; }
      ghost var before := entries;
      var e := SettleEntry(entries[at.value], error);
      entries := entries[at.value := e];
      IndexesSame(blockIndex, before, entries);
      OutpointsSame(before, entries);
    }

    method SettleEntry(entry: Entry, error: Option<string>) returns (e: Entry)
      ensures e == Settle(entry, error, lastDaa)
    {
      hide Contains;
      e := entry;
      if error.None? {
        e := e.(claimed := true);
      } else if IsOrphan(error.value) {
        e := e.(retries := e.retries + 1);
        if e.retries >= MAX_ORPHAN_RETRIES {
          e := e.(orphanSlashed := false, slashed := true);
        } else {
          e := e.(orphanSlashed := true, retryAfter := Some(lastDaa + ORPHAN_COOLDOWN));
        }
      } else if IsSeqLock(error.value) {
        e := e.(retryAfter := Some(lastDaa + SEQ_LOCK_COOLDOWN));
      } else {
        e := e.(slashed := true);
      }
    }

    method TrackInferenceEscrow(txid: string, daa: nat, amount: nat)
      requires Valid()
      modifies this`entries, this`outpointSet, this`blockIndex
      ensures Valid() && Now() == TrackInference(old(Now()), txid, daa, amount)
    {
      if amount == 0 { return; }
      FindsTracked(entries, Outpoint(txid, 1));
      if Outpoint(txid, 1) in outpointSet { return; }
      PushEntry(Entry(Outpoint(txid, 1), "", daa, amount, false, false, false, 0, None, true));
    }
  }
}
