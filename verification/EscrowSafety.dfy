/** What every step and every run of the escrow watcher keeps. */
module EscrowSafety {
  import opened Wrappers
  import opened Escrow

  ghost predicate Distinct(entries: seq<Entry>) {
    forall i, j :: 0 <= i < j < |entries| ==> entries[i].outpoint != entries[j].outpoint
  }

  /** The entry with an outpoint, if there is one. */
  function Get(entries: seq<Entry>, o: Outpoint): (r: Option<Entry>)
    ensures r.Some? ==> r.value in entries && r.value.outpoint == o
  {
    match Find(entries, o)
    case None => None
    case Some(i) => Some(entries[i])
  }

  // In a list of distinct outpoints an entry is found by its outpoint.
  lemma GetAt(entries: seq<Entry>, i: nat)
    requires Distinct(entries) && i < |entries|
    ensures Find(entries, entries[i].outpoint) == Some(i) && Get(entries, entries[i].outpoint) == Some(entries[i])
  {
  }

  // Appending one entry.
  lemma GetSnoc(init: seq<Entry>, e: Entry, o: Outpoint)
    ensures Get(init + [e], o) ==
      if Get(init, o).Some? then Get(init, o) else if e.outpoint == o then Some(e) else None
  {
    var all := init + [e];
    assert all[|init|] == e;
    assert forall j :: 0 <= j < |init| ==> all[j] == init[j];
  }

  lemma DistinctSnoc(init: seq<Entry>, e: Entry)
    ensures Distinct(init + [e]) <==> Distinct(init) && Get(init, e.outpoint).None?
  {
    var all := init + [e];
    assert all[|init|] == e;
    assert forall j :: 0 <= j < |init| ==> all[j] == init[j];
  }

  lemma {:induction false} GetCompact(entries: seq<Entry>, o: Outpoint)
    requires Distinct(entries)
    ensures Distinct(Compact(entries))
    ensures Get(Compact(entries), o) ==
      if Get(entries, o).Some? && Get(entries, o).value.Live() then Get(entries, o) else None
    decreases |entries|
  {
    if entries == [] {
    } else {
      hide Distinct, Get;
      var init, e := entries[..|entries| - 1], entries[|entries| - 1];
      assert entries == init + [e];
      DistinctSnoc(init, e);
      GetCompact(init, o);
      GetCompact(init, e.outpoint);
      DistinctSnoc(Compact(init), e);
      GetSnoc(init, e, o);
      GetSnoc(Compact(init), e, o);
      assert Compact(init) + [] == Compact(init);
    }
  }

  lemma GetSlashed(entries: seq<Entry>, reds: seq<string>, o: Outpoint)
    ensures Distinct(entries) ==> Distinct(SlashScan(entries, reds))
    ensures Get(SlashScan(entries, reds), o) ==
      if Get(entries, o).Some? then Some(SlashOne(Get(entries, o).value, reds)) else None
  {
    var r := SlashScan(entries, reds);
    assert forall i :: 0 <= i < |r| ==> r[i].outpoint == entries[i].outpoint;
  }

  predicate IsFresh(e: Entry) {
    e.Live() && !e.orphanSlashed && e.retries == 0 && e.retryAfter.None?
  }

  lemma {:induction false} GetTracked(entries: seq<Entry>, txid: string, hash: string, daa: nat, outputs: seq<Output>,
                                      script: string, k: nat, o: Outpoint)
    requires Distinct(entries) && k <= |outputs|
    ensures var r := Track(entries, txid, hash, daa, outputs, script, k);
      && Distinct(r)
      && (Get(entries, o).Some? ==> Get(r, o) == Get(entries, o))
      && (Get(entries, o).None? && Get(r, o).Some? ==> IsFresh(Get(r, o).value))
    decreases k
  {
    if k == 0 {
    } else {
      hide Distinct, Find, Ours;
      var before := Track(entries, txid, hash, daa, outputs, script, k - 1);
      var e := FreshEntry(txid, hash, daa, k - 1, outputs[k - 1].amount);
      GetTracked(entries, txid, hash, daa, outputs, script, k - 1, o);
      DistinctSnoc(before, e);
      GetSnoc(before, e, o);
    }
  }

  lemma GetReplaced(entries: seq<Entry>, i: nat, e: Entry, o: Outpoint)
    requires Distinct(entries) && i < |entries| && e.outpoint == entries[i].outpoint
    ensures Distinct(entries[i := e])
    ensures Get(entries[i := e], o) == if o == e.outpoint then Some(e) else Get(entries, o)
  {
    var r := entries[i := e];
    assert forall j :: 0 <= j < |r| ==> r[j].outpoint == entries[j].outpoint;
  }

  // ---- one step, seen from one outpoint ----

  /** The entries a step leaves before it tracks anything new. */
  function Pruned(v: View, e: Event): seq<Entry> {
    if e.BlockSeen? && e.block.daa.Some? then Prune(v, e.block).entries else v.entries
  }

  /** The step starts tracking `o`. */
  predicate Tracks(v: View, e: Event, script: string, o: Outpoint) {
    Get(Pruned(v, e), o).None? && Get(Next(v, e, script).0.entries, o).Some?
  }

  /** The step settles the claim of `o`. */
  predicate Settles(v: View, e: Event, o: Outpoint) {
    e.Response? && InFlight(v) == Some(o)
  }

  /** How a step changes an entry that it neither drops nor starts tracking. */
  predicate Evolves(v: View, e: Event, before: Entry, after: Entry) {
    && after.confirmDaa == before.confirmDaa && after.amount == before.amount && after.isInference == before.isInference
    && (before.claimed ==> after.claimed) && (before.slashed ==> after.slashed)
    && if Settles(v, e, before.outpoint) then after == Settle(before, e.error, v.lastDaa)
       else after.retries == before.retries && after.retryAfter == before.retryAfter && after.claimed == before.claimed
  }

  lemma PruneEntry(v: View, b: Block, o: Outpoint)
    requires Distinct(v.entries) && b.daa.Some?
    ensures Distinct(Prune(v, b).entries)
    ensures Get(Prune(v, b).entries, o).Some? ==>
      Get(v.entries, o).Some? && Evolves(v, BlockSeen(b), Get(v.entries, o).value, Get(Prune(v, b).entries, o).value)
  {
    hide Find, Compact;
    var v1 := MaybeCompact(v.(lastDaa := b.daa.value));
    GetCompact(v.entries, o);
    if b.verbose.Some? {
      GetSlashed(v1.entries, b.verbose.value.reds, o);
    }
  }

  /** After a step outpoints are distinct; the entry of `o` is fresh if the step starts
      tracking it, and otherwise it has evolved from the entry before. */
  ghost predicate EntryStep(v: View, e: Event, script: string, o: Outpoint) {
    var v' := Next(v, e, script).0;
    && Distinct(v'.entries)
    && (Tracks(v, e, script, o) ==> IsFresh(Get(v'.entries, o).value))
    && (!Tracks(v, e, script, o) && Get(v'.entries, o).Some? ==>
          Get(v.entries, o).Some? && Evolves(v, e, Get(v.entries, o).value, Get(v'.entries, o).value))
  }

  lemma BlockStep(v: View, b: Block, script: string, o: Outpoint)
    requires Distinct(v.entries)
    ensures EntryStep(v, BlockSeen(b), script, o)
  {
    hide Find, Get, Track, Prune, Chosen;
    if b.daa.Some? {
      PruneEntry(v, b, o);
      if UsableCoinbase(b).Some? {
        var cb := UsableCoinbase(b).value;
        GetTracked(Prune(v, b).entries, cb.txid.value, BlockHash(b), b.daa.value, cb.outputs, script, |cb.outputs|, o);
      }
    }
  }

  lemma ResponseStep(v: View, error: Option<string>, script: string, o: Outpoint)
    requires Distinct(v.entries)
    ensures EntryStep(v, Response(error), script, o)
  {
    hide Find, Contains;
    if InFlight(v).Some? && Find(v.entries, InFlight(v).value).Some? {
      var i := Find(v.entries, InFlight(v).value).value;
      GetReplaced(v.entries, i, Settle(v.entries[i], error, v.lastDaa), o);
      GetAt(v.entries, i);
    }
  }

  lemma InferenceStep(v: View, txid: string, daa: nat, amount: nat, script: string, o: Outpoint)
    requires Distinct(v.entries)
    ensures EntryStep(v, InferencePaid(txid, daa, amount), script, o)
  {
    hide Find, Distinct;
    var e := Entry(Outpoint(txid, 1), "", daa, amount, false, false, false, 0, None, true);
    DistinctSnoc(v.entries, e);
    GetSnoc(v.entries, e, o);
  }

  /** Every step, seen from every outpoint. */
  lemma StepEntry(v: View, e: Event, script: string, o: Outpoint)
    requires Distinct(v.entries)
    ensures EntryStep(v, e, script, o)
  {
    hide EntryStep;
    match e
    case BlockSeen(b) => BlockStep(v, b, script, o);
    case Response(error) => ResponseStep(v, error, script, o);
    case InferencePaid(txid, daa, amount) => InferenceStep(v, txid, daa, amount, script, o);
  }

  // ---- claims ----

  /** The claim a step issues. */
  function Issued(v: View, e: Event, script: string): Option<ClaimTx> {
    Next(v, e, script).1
  }

  /** The score of the block an event carries. */
  function EventDaa(e: Event): nat {
    if e.BlockSeen? && e.block.daa.Some? then e.block.daa.value else 0
  }

  lemma FindClaimIsSafe(v: View, daa: nat)
    requires Distinct(v.entries) && FindClaim(v, daa).1.Some?
    ensures var (v', tx) := (FindClaim(v, daa).0, FindClaim(v, daa).1.value);
      && v.pendingTxid.None? && InFlight(v') == Some(tx.spends) && v'.entries == v.entries
      && Get(v'.entries, tx.spends).Some?
      && var e := Get(v'.entries, tx.spends).value;
      && Eligible(e, daa) && tx.pays + CLAIM_FEE == e.amount && tx.pays > 0
      && (!e.isInference ==>
            forall i :: 0 <= i < |v'.entries| && v'.entries[i].isInference ==> !Eligible(v'.entries[i], daa))
  {
    hide Find, FirstEligible, IsTxid, Eligible;
    var i := Chosen(v.entries, daa).value;
    GetAt(v.entries, i);
  }

  /** A claim is issued only with nothing in flight; it spends a tracked entry that is neither
      claimed nor slashed, is 36 010 past its confirmation and past its cooldown; it pays out
      the escrowed amount less the fee; and it passes over inference entries only when none
      is eligible. */
  lemma IssuedClaimIsSafe(v: View, e: Event, script: string)
    requires Distinct(v.entries) && Issued(v, e, script).Some?
    ensures var (v', tx) := (Next(v, e, script).0, Issued(v, e, script).value);
      && InFlight(v).None? && InFlight(v') == Some(tx.spends) && e.BlockSeen? && e.block.daa.Some?
      && Get(v'.entries, tx.spends).Some?
      && var entry := Get(v'.entries, tx.spends).value;
      && entry.Live()
      && EventDaa(e) >= entry.confirmDaa + 36_010
      && (entry.retryAfter.Some? ==> EventDaa(e) >= entry.retryAfter.value)
      && tx.pays + 30_000_000 == entry.amount && tx.pays > 0
      && (!entry.isInference ==>
            forall i :: 0 <= i < |v'.entries| && v'.entries[i].isInference ==> !Eligible(v'.entries[i], EventDaa(e)))
  {
    hide Find, FirstEligible, Track, Prune, Chosen, BuildClaim;
    var b := e.block;
    var v1 := Prune(v, b);
    PruneEntry(v, b, Outpoint("", 0));
    var cb := UsableCoinbase(b).value;
    GetTracked(v1.entries, cb.txid.value, BlockHash(b), b.daa.value, cb.outputs, script, |cb.outputs|, Outpoint("", 0));
    FindClaimIsSafe(TrackBlock(v1, b, script), b.daa.value);
    PrunePending(v, b);
  }

  lemma PrunePending(v: View, b: Block)
    requires b.daa.Some?
    ensures Prune(v, b).pendingTxid == v.pendingTxid && Prune(v, b).pendingIndex == v.pendingIndex
  {
    hide Compact, SlashScan;
  }

  /** The two fields that hold the claim in flight are set together. */
  predicate Paired(v: View) {
    v.pendingTxid.Some? <==> v.pendingIndex.Some?
  }

  function Bit(b: bool): nat {
    if b then 1 else 0
  }

  // How one step moves the claim in flight.
  lemma StepPending(v: View, e: Event, script: string)
    ensures Paired(v) ==> Paired(Next(v, e, script).0)
    ensures Bit(Issued(v, e, script).Some?) + Bit(InFlight(v).Some?)
         == Bit(e.Response? && InFlight(v).Some?) + Bit(InFlight(Next(v, e, script).0).Some?)
    ensures Issued(v, e, script).None? && !e.Response? ==> InFlight(Next(v, e, script).0) == InFlight(v)
    ensures e.Response? ==> InFlight(Next(v, e, script).0).None?
  {
    hide Find, FirstEligible, Track, Prune, Chosen, BuildClaim;
    if e.BlockSeen? && e.block.daa.Some? {
      PrunePending(v, e.block);
    }
  }

  function IssuedCount(v: View, es: seq<Event>, script: string): nat
    decreases |es|
  {
    if es == [] then 0
    else Bit(Issued(v, es[0], script).Some?) + IssuedCount(Next(v, es[0], script).0, es[1..], script)
  }

  function SettledCount(v: View, es: seq<Event>, script: string): nat
    decreases |es|
  {
    if es == [] then 0
    else Bit(es[0].Response? && InFlight(v).Some?) + SettledCount(Next(v, es[0], script).0, es[1..], script)
  }

  /** Over every run, claims issued are claims settled plus at most the one in flight. */
  lemma {:induction false} OneClaimInFlight(v: View, es: seq<Event>, script: string)
    ensures IssuedCount(v, es, script) + Bit(InFlight(v).Some?)
         == SettledCount(v, es, script) + Bit(InFlight(Run(v, es, script)).Some?)
    ensures Paired(v) ==> Paired(Run(v, es, script))
    decreases |es|
  {
    hide Next, Issued, InFlight;
    if es == [] {
    } else {
      StepPending(v, es[0], script);
      OneClaimInFlight(Next(v, es[0], script).0, es[1..], script);
    }
  }

  // ---- runs, seen from one outpoint ----

  /** Some step of the run starts tracking `o`. */
  predicate EverTracks(v: View, es: seq<Event>, script: string, o: Outpoint)
    decreases |es|
  {
    es != [] && (Tracks(v, es[0], script, o) || EverTracks(Next(v, es[0], script).0, es[1..], script, o))
  }

  lemma {:induction false} RunKeepsDistinct(v: View, es: seq<Event>, script: string)
    requires Distinct(v.entries)
    ensures Distinct(Run(v, es, script).entries)
    decreases |es|
  {
    hide Next, Distinct;
    if es == [] {
    } else {
      StepEntry(v, es[0], script, Outpoint("", 0));
      RunKeepsDistinct(Next(v, es[0], script).0, es[1..], script);
    }
  }

  /** No unfinished entry has the outpoint. */
  predicate Finished(entries: seq<Entry>, o: Outpoint) {
    Get(entries, o).Some? ==> !Get(entries, o).value.Live()
  }

  /** How many claims of `o` a run issues. */
  function ClaimsOf(v: View, es: seq<Event>, script: string, o: Outpoint): nat
    decreases |es|
  {
    if es == [] then 0
    else Bit(Issued(v, es[0], script).Some? && Issued(v, es[0], script).value.spends == o)
         + ClaimsOf(Next(v, es[0], script).0, es[1..], script, o)
  }

  /** Once an outpoint is claimed, slashed or dropped, no run claims it again unless it
      starts tracking it anew. */
  lemma {:induction false} FinishedIsNeverClaimed(v: View, es: seq<Event>, script: string, o: Outpoint)
    requires Distinct(v.entries) && Finished(v.entries, o) && !EverTracks(v, es, script, o)
    ensures ClaimsOf(v, es, script, o) == 0 && Finished(Run(v, es, script).entries, o)
    decreases |es|
  {
    hide Next, Distinct, Tracks, Get, Issued, InFlight;
    if es == [] {
    } else {
      StepEntry(v, es[0], script, o);
      if Issued(v, es[0], script).Some? {
        IssuedClaimIsSafe(v, es[0], script);
      }
      FinishedIsNeverClaimed(Next(v, es[0], script).0, es[1..], script, o);
    }
  }

  lemma {:induction false} TrackAdds(entries: seq<Entry>, txid: string, hash: string, daa: nat, outputs: seq<Output>,
                                     script: string, k: nat, i: nat)
    requires Distinct(entries) && i < k <= |outputs| && Ours(outputs[i], script)
    ensures Get(Track(entries, txid, hash, daa, outputs, script, k), Outpoint(txid, i)).Some?
    decreases k
  {
    hide Ours, Find, Distinct;
    var before := Track(entries, txid, hash, daa, outputs, script, k - 1);
    GetSnoc(before, FreshEntry(txid, hash, daa, k - 1, outputs[k - 1].amount), Outpoint(txid, i));
    if i < k - 1 {
      TrackAdds(entries, txid, hash, daa, outputs, script, k - 1, i);
    }
  }

  /** The block's coinbase pays the watched script at `o`. */
  predicate Pays(b: Block, script: string, o: Outpoint) {
    && b.daa.Some? && UsableCoinbase(b).Some? && UsableCoinbase(b).value.txid == Some(o.txid)
    && o.index < |UsableCoinbase(b).value.outputs| && Ours(UsableCoinbase(b).value.outputs[o.index], script)
  }

  /** A block that pays `o` starts tracking it exactly when no entry has the outpoint, or when
      its entry is finished and this very step compacts it away. */
  lemma RedeliveryRetracksExactly(v: View, b: Block, script: string, o: Outpoint)
    requires Distinct(v.entries) && Pays(b, script, o)
    ensures Tracks(v, BlockSeen(b), script, o) <==>
      || Get(v.entries, o).None?
      || (!Get(v.entries, o).value.Live() && v.sinceCompact + 1 >= 2_000)
  {
    hide Find, Get, Ours, Track, Compact, SlashScan, Chosen;
    var v1 := Prune(v, b);
    var cb := UsableCoinbase(b).value;
    GetCompact(v.entries, o);
    PruneEntry(v, b, o);
    if b.verbose.Some? {
      GetSlashed(MaybeCompact(v.(lastDaa := b.daa.value)).entries, b.verbose.value.reds, o);
    }
    TrackAdds(v1.entries, o.txid, BlockHash(b), b.daa.value, cb.outputs, script, |cb.outputs|, o.index);
  }

  predicate IsScored(e: Event) {
    e.BlockSeen? && e.block.daa.Some?
  }

  /** How many blocks of a run carry a score. */
  function Scored(es: seq<Event>): nat {
    if es == [] then 0 else Bit(IsScored(es[0])) + Scored(es[1..])
  }

  // What one step that does not track `o` does to its finished entry.
  lemma FinishedStep(v: View, e: Event, script: string, o: Outpoint)
    requires Distinct(v.entries) && Get(v.entries, o).Some? && Finished(v.entries, o) && !Tracks(v, e, script, o)
    ensures var v' := Next(v, e, script).0;
      && Finished(v'.entries, o)
      && (Get(v'.entries, o).None? <==> IsScored(e) && v.sinceCompact + 1 >= 2_000)
      && v'.sinceCompact ==
         if !IsScored(e) then v.sinceCompact else if v.sinceCompact + 1 >= 2_000 then 0 else v.sinceCompact + 1
  {
    hide Find, Get, Ours, Track, Compact, SlashScan, Chosen, Distinct, Contains;
    StepEntry(v, e, script, o);
    if IsScored(e) {
      ScoredStep(v, e.block, script, o);
    } else {
      OtherStep(v, e, script, o);
    }
  }

  // A block drops exactly the finished entries it compacts.
  lemma ScoredStep(v: View, b: Block, script: string, o: Outpoint)
    requires Distinct(v.entries) && b.daa.Some? && Get(v.entries, o).Some? && Finished(v.entries, o)
    requires !Tracks(v, BlockSeen(b), script, o)
    ensures var v' := Next(v, BlockSeen(b), script).0;
      && (Get(v'.entries, o).None? <==> v.sinceCompact + 1 >= 2_000)
      && v'.sinceCompact == if v.sinceCompact + 1 >= 2_000 then 0 else v.sinceCompact + 1
  {
    hide Find, Get, Ours, Track, Compact, SlashScan, Chosen;
    GetCompact(v.entries, o);
    PruneEntry(v, b, o);
    if b.verbose.Some? {
      GetSlashed(MaybeCompact(v.(lastDaa := b.daa.value)).entries, b.verbose.value.reds, o);
    }
    if UsableCoinbase(b).Some? {
      var cb := UsableCoinbase(b).value;
      GetTracked(Prune(v, b).entries, cb.txid.value, BlockHash(b), b.daa.value, cb.outputs, script, |cb.outputs|, o);
    }
  }

  // Every other event keeps the entry.
  lemma OtherStep(v: View, e: Event, script: string, o: Outpoint)
    requires Distinct(v.entries) && !IsScored(e) && Get(v.entries, o).Some?
    ensures Get(Next(v, e, script).0.entries, o).Some? && Next(v, e, script).0.sinceCompact == v.sinceCompact
  {
    hide Contains;
    match e
    case BlockSeen(b) =>
    case Response(error) =>
      if InFlight(v).Some? && Find(v.entries, InFlight(v).value).Some? {
        var i := Find(v.entries, InFlight(v).value).value;
        GetReplaced(v.entries, i, Settle(v.entries[i], error, v.lastDaa), o);
      }
    case InferencePaid(txid, daa, amount) =>
      GetSnoc(v.entries, Entry(Outpoint(txid, 1), "", daa, amount, false, false, false, 0, None, true), o);
  }

  /** Over every run the compaction counter counts the scored blocks, modulo its limit. */
  lemma {:induction false} CounterCounts(v: View, es: seq<Event>, script: string)
    requires v.sinceCompact < 2_000
    ensures Run(v, es, script).sinceCompact == (v.sinceCompact + Scored(es)) % 2_000
    decreases |es|
  {
    hide Next;
    if es == [] {
    } else {
      CounterStep(v, es[0], script);
      CounterCounts(Next(v, es[0], script).0, es[1..], script);
    }
  }

  lemma CounterStep(v: View, e: Event, script: string)
    requires v.sinceCompact < 2_000
    ensures Next(v, e, script).0.sinceCompact == (v.sinceCompact + Bit(IsScored(e))) % 2_000
  {
    hide Find, Track, Compact, SlashScan, Chosen, Contains;
  }

  /** Over any run that does not track it anew, a finished entry is forgotten exactly when the
      blocks seen since the last compaction reach 2 000. */
  lemma {:induction false} ForgottenExactly(v: View, es: seq<Event>, script: string, o: Outpoint)
    requires Distinct(v.entries) && Get(v.entries, o).Some? && Finished(v.entries, o) && v.sinceCompact < 2_000
    requires !EverTracks(v, es, script, o)
    ensures var v' := Run(v, es, script);
      && Finished(v'.entries, o)
      && (Get(v'.entries, o).None? <==> v.sinceCompact + Scored(es) >= 2_000)
      && (Get(v'.entries, o).Some? ==> v'.sinceCompact == v.sinceCompact + Scored(es))
    decreases |es|
  {
    hide Next, Distinct, Tracks, Get;
    if es == [] {
    } else {
      var v' := Next(v, es[0], script).0;
      FinishedStep(v, es[0], script, o);
      StepEntry(v, es[0], script, o);
      if Get(v'.entries, o).None? {
        AbsentStays(v', es[1..], script, o);
      } else {
        ForgottenExactly(v', es[1..], script, o);
      }
    }
  }

  /** When a finished outpoint can be claimed a second time: after any run that does not track
      it, a redelivery of its block tracks it again exactly when the blocks seen since the last
      compaction, that redelivery included, reach 2 000. */
  lemma RetrackedExactly(v: View, es: seq<Event>, b: Block, script: string, o: Outpoint)
    requires Distinct(v.entries) && Get(v.entries, o).Some? && Finished(v.entries, o) && v.sinceCompact < 2_000
    requires !EverTracks(v, es, script, o) && Pays(b, script, o)
    ensures Tracks(Run(v, es, script), BlockSeen(b), script, o) <==> v.sinceCompact + Scored(es) + 1 >= 2_000
  {
    hide Distinct, Get, Tracks, Pays, EverTracks, Run;
    ForgottenExactly(v, es, script, o);
    RunKeepsDistinct(v, es, script);
    RedeliveryRetracksExactly(Run(v, es, script), b, script, o);
  }

  /** The same from the start of a watcher, over any saved entries: after a run that finishes an
      outpoint and one that does not track it, only the scored blocks of the two decide. */
  lemma RetrackedFromStart(saved: seq<Entry>, es: seq<Event>, more: seq<Event>, b: Block, script: string, o: Outpoint)
    requires Distinct(saved) && Pays(b, script, o)
    requires var v := Run(View(saved, None, None, 0, 0), es, script);
      Get(v.entries, o).Some? && Finished(v.entries, o) && !EverTracks(v, more, script, o)
    ensures Tracks(Run(Run(View(saved, None, None, 0, 0), es, script), more, script), BlockSeen(b), script, o)
      <==> Scored(es) % 2_000 + Scored(more) + 1 >= 2_000
  {
    hide Distinct, Get, Tracks, Pays, EverTracks, Run, Finished, Scored;
    var v0 := View(saved, None, None, 0, 0);
    CounterCounts(v0, es, script);
    RunKeepsDistinct(v0, es, script);
    RetrackedExactly(Run(v0, es, script), more, b, script, o);
  }

  // ---- rejections ----

  /** The step is an orphan rejection of the claim of `o`. */
  predicate OrphanRejects(v: View, e: Event, o: Outpoint) {
    Settles(v, e, o) && e.error.Some? && IsOrphan(e.error.value)
  }

  /** No entry has more than ten orphan rejections, and none that can still be claimed or
      is being claimed more than nine. */
  ghost predicate RetriesOk(v: View) {
    forall o :: Get(v.entries, o).Some? ==>
      && Get(v.entries, o).value.retries <= MAX_ORPHAN_RETRIES
      && (Get(v.entries, o).value.Live() || InFlight(v) == Some(o) ==>
            Get(v.entries, o).value.retries < MAX_ORPHAN_RETRIES)
  }

  lemma StepKeepsRetries(v: View, e: Event, script: string)
    requires Distinct(v.entries) && RetriesOk(v)
    ensures RetriesOk(Next(v, e, script).0)
  {
    hide Next, Distinct, Tracks, Get, Issued, InFlight, Contains;
    var v' := Next(v, e, script).0;
    StepPending(v, e, script);
    if Issued(v, e, script).Some? {
      IssuedClaimIsSafe(v, e, script);
    }
    forall o | Get(v'.entries, o).Some?
      ensures Get(v'.entries, o).value.retries <= MAX_ORPHAN_RETRIES
      ensures Get(v'.entries, o).value.Live() || InFlight(v') == Some(o) ==>
        Get(v'.entries, o).value.retries < MAX_ORPHAN_RETRIES
    {
      StepEntry(v, e, script, o);
    }
  }

  /** Over every run, the retry counter never exceeds ten. */
  lemma {:induction false} RetriesAreBounded(v: View, es: seq<Event>, script: string)
    requires Distinct(v.entries) && RetriesOk(v)
    ensures RetriesOk(Run(v, es, script))
    decreases |es|
  {
    hide Next, Distinct, RetriesOk;
    if es == [] {
    } else {
      StepKeepsRetries(v, es[0], script);
      StepEntry(v, es[0], script, Outpoint("", 0));
      RetriesAreBounded(Next(v, es[0], script).0, es[1..], script);
    }
  }

  function RejectionsOf(v: View, es: seq<Event>, script: string, o: Outpoint): nat
    decreases |es|
  {
    if es == [] then 0
    else Bit(OrphanRejects(v, es[0], o)) + RejectionsOf(Next(v, es[0], script).0, es[1..], script, o)
  }

  lemma {:induction false} AbsentStays(v: View, es: seq<Event>, script: string, o: Outpoint)
    requires Distinct(v.entries) && Get(v.entries, o).None? && !EverTracks(v, es, script, o)
    ensures Get(Run(v, es, script).entries, o).None?
    decreases |es|
  {
    hide Next, Distinct, Tracks, Get;
    if es == [] {
    } else {
      StepEntry(v, es[0], script, o);
      AbsentStays(Next(v, es[0], script).0, es[1..], script, o);
    }
  }

  /** For as long as an entry stays tracked, its retry counter grows by exactly the orphan
      rejections of its own claims. */
  lemma {:induction false} RetriesCountRejections(v: View, es: seq<Event>, script: string, o: Outpoint)
    requires Distinct(v.entries) && !EverTracks(v, es, script, o)
    requires Get(v.entries, o).Some? && Get(Run(v, es, script).entries, o).Some?
    ensures Get(Run(v, es, script).entries, o).value.retries
         == Get(v.entries, o).value.retries + RejectionsOf(v, es, script, o)
    decreases |es|
  {
    hide Next, Distinct, Tracks, Get, InFlight, Contains;
    if es == [] {
    } else {
      var v' := Next(v, es[0], script).0;
      StepEntry(v, es[0], script, o);
      if Get(v'.entries, o).None? {
        AbsentStays(v', es[1..], script, o);
      } else {
        RetriesCountRejections(v', es[1..], script, o);
      }
    }
  }

  /** An orphan rejection of a live entry finishes it exactly when it is the tenth; from then
      on no run claims it again unless it starts tracking it anew. */
  lemma TenthRejectionIsFinal(v: View, e: Event, script: string, o: Outpoint, es: seq<Event>)
    requires Distinct(v.entries) && OrphanRejects(v, e, o)
    requires Get(v.entries, o).Some? && Get(v.entries, o).value.Live()
    ensures var v' := Next(v, e, script).0;
      && (Finished(v'.entries, o) <==> Get(v.entries, o).value.retries + 1 >= 10)
      && (Finished(v'.entries, o) && !EverTracks(v', es, script, o) ==> ClaimsOf(v', es, script, o) == 0)
  {
    hide Find, Contains, EverTracks, ClaimsOf;
    var v' := Next(v, e, script).0;
    SettledEntry(v, e, script, o);
    StepEntry(v, e, script, o);
    if Finished(v'.entries, o) && !EverTracks(v', es, script, o) {
      FinishedIsNeverClaimed(v', es, script, o);
    }
  }

  lemma SettledEntry(v: View, e: Event, script: string, o: Outpoint)
    requires Distinct(v.entries) && Settles(v, e, o)
    ensures Get(Next(v, e, script).0.entries, o) ==
      if Get(v.entries, o).None? then None else Some(Settle(Get(v.entries, o).value, e.error, v.lastDaa))
  {
    hide Contains;
    if Find(v.entries, o).Some? {
      var i := Find(v.entries, o).value;
      GetReplaced(v.entries, i, Settle(v.entries[i], e.error, v.lastDaa), o);
    }
  }

  /** Any claim of `o` has to wait for a block at `t` or later. */
  predicate Cooling(v: View, o: Outpoint, t: nat) {
    && InFlight(v) != Some(o)
    && (!Finished(v.entries, o) ==>
          Get(v.entries, o).value.retryAfter.Some? && Get(v.entries, o).value.retryAfter.value >= t)
  }

  /** The score of the block at which a run first claims `o`. */
  function FirstClaim(v: View, es: seq<Event>, script: string, o: Outpoint): Option<nat>
    decreases |es|
  {
    if es == [] then None
    else if Issued(v, es[0], script).Some? && Issued(v, es[0], script).value.spends == o then Some(EventDaa(es[0]))
    else FirstClaim(Next(v, es[0], script).0, es[1..], script, o)
  }

  lemma {:induction false} CoolingDelaysClaim(v: View, es: seq<Event>, script: string, o: Outpoint, t: nat)
    requires Distinct(v.entries) && Cooling(v, o, t) && !EverTracks(v, es, script, o)
    ensures FirstClaim(v, es, script, o).Some? ==> FirstClaim(v, es, script, o).value >= t
    decreases |es|
  {
    hide Next, Distinct, Tracks, Get, Issued, InFlight, Contains;
    if es == [] {
    } else {
      StepEntry(v, es[0], script, o);
      StepPending(v, es[0], script);
      if Issued(v, es[0], script).Some? {
        IssuedClaimIsSafe(v, es[0], script);
      }
      if !(Issued(v, es[0], script).Some? && Issued(v, es[0], script).value.spends == o) {
        CoolingDelaysClaim(Next(v, es[0], script).0, es[1..], script, o, t);
      }
    }
  }

  /** After a retriable rejection, every run claims the same entry again only at a block 100
      (orphan) or 20 (sequence lock) past the last score seen at the rejection. */
  lemma RejectedClaimWaits(v: View, e: Event, script: string, o: Outpoint, es: seq<Event>)
    requires Distinct(v.entries) && Settles(v, e, o)
    requires e.error.Some? && (IsOrphan(e.error.value) || IsSeqLock(e.error.value))
    requires !EverTracks(Next(v, e, script).0, es, script, o)
    ensures var first := FirstClaim(Next(v, e, script).0, es, script, o);
      first.Some? ==> first.value >= v.lastDaa + if IsOrphan(e.error.value) then 100 else 20
  {
    hide Next, Contains, EverTracks, FirstClaim, Get, Distinct, InFlight, Tracks;
    var v' := Next(v, e, script).0;
    StepEntry(v, e, script, o);
    StepPending(v, e, script);
    SettledEntry(v, e, script, o);
    CoolingDelaysClaim(v', es, script, o, v.lastDaa + if IsOrphan(e.error.value) then 100 else 20);
  }
}
