/** When a block issues a claim, and how an entry that cannot be built into one holds up all
    the others. */
module EscrowStarvation {
  import opened Wrappers
  import opened Escrow
  import opened EscrowSafety

  // ---- when a claim is issued ----

  /** Entry `i` is claimed before entry `j`: inference entries first, then the older. */
  predicate Precedes(entries: seq<Entry>, i: nat, j: nat)
    requires i < |entries| && j < |entries|
  {
    if entries[i].isInference != entries[j].isInference then entries[i].isInference else i < j
  }

  /** Entry `i` is eligible and precedes every other eligible entry. */
  predicate IsNext(entries: seq<Entry>, daa: nat, i: nat) {
    && i < |entries| && Eligible(entries[i], daa)
    && forall j :: 0 <= j < |entries| && j != i && Eligible(entries[j], daa) ==> Precedes(entries, i, j)
  }

  predicate Buildable(e: Entry) {
    e.amount > 30_000_000 && IsTxid(e.outpoint.txid)
  }

  lemma ChosenIsNext(entries: seq<Entry>, daa: nat, i: nat)
    ensures Chosen(entries, daa) == Some(i) <==> IsNext(entries, daa, i)
  {
    hide Eligible;
    if Chosen(entries, daa).Some? {
      var c := Chosen(entries, daa).value;
      forall j | 0 <= j < |entries| && j != c && Eligible(entries[j], daa) ensures Precedes(entries, c, j) {
        assert EligibleAs(entries[j], daa, entries[j].isInference);
      }
    }
    if IsNext(entries, daa, i) {
      assert EligibleAs(entries[i], daa, entries[i].isInference);
    }
  }

  /** The entries among which a block looks for a claim: compacted, slashed, and with the block's
      own escrows tracked. */
  function Line(v: View, b: Block, script: string): seq<Entry>
    requires b.daa.Some? && UsableCoinbase(b).Some?
  {
    TrackBlock(Prune(v, b), b, script).entries
  }

  /** A step issues a claim exactly when it is a scored block with a usable coinbase, nothing is
      in flight, and the first entry in line can be built into one, and then it is the claim of
      that entry: a first entry that cannot be built is not passed over. */
  lemma ClaimIssuedExactly(v: View, e: Event, script: string)
    ensures Issued(v, e, script).Some? <==>
      && IsScored(e) && UsableCoinbase(e.block).Some? && InFlight(v).None?
      && var line := Line(v, e.block, script);
         exists i: nat :: IsNext(line, EventDaa(e), i) && Buildable(line[i])
    ensures Issued(v, e, script).Some? ==>
      var line := Line(v, e.block, script);
      exists i: nat :: IsNext(line, EventDaa(e), i) && Buildable(line[i])
        && Issued(v, e, script).value.spends == line[i].outpoint
  {
    hide Find, Track, Prune, Chosen, IsNext, IsTxid;
    if IsScored(e) && UsableCoinbase(e.block).Some? {
      PrunePending(v, e.block);
      var line := Line(v, e.block, script);
      if Chosen(line, EventDaa(e)).Some? {
        ChosenIsNext(line, EventDaa(e), Chosen(line, EventDaa(e)).value);
      }
      forall i: nat | IsNext(line, EventDaa(e), i) ensures Chosen(line, EventDaa(e)) == Some(i) {
        ChosenIsNext(line, EventDaa(e), i);
      }
    }
  }

  // Looking for a claim changes no entry.
  lemma LineIsKept(v: View, e: Event, script: string)
    requires IsScored(e) && UsableCoinbase(e.block).Some?
    ensures Next(v, e, script).0.entries == Line(v, e.block, script)
  {
    hide Track, Prune, Chosen, BuildClaim;
  }

  /** An inference entry that cannot be built heads the line: it is unfinished and not in
      flight, and so is no inference entry before it that could be built. */
  ghost predicate Heads(v: View, stuck: Entry, before: seq<Entry>, after: seq<Entry>) {
    && v.entries == before + [stuck] + after
    && stuck.Live() && stuck.isInference && !Buildable(stuck) && InFlight(v) != Some(stuck.outpoint)
    && forall x :: x in before && x.isInference && x.Live() ==> !Buildable(x)
  }

  ghost predicate Starved(v: View, stuck: Entry) {
    Distinct(v.entries) && exists before, after :: Heads(v, stuck, before, after)
  }

  lemma {:induction false} CompactConcat(a: seq<Entry>, b: seq<Entry>)
    ensures Compact(a + b) == Compact(a) + Compact(b)
    decreases |b|
  {
    if b == [] {
      assert a + b == a;
    } else {
      var l := |b| - 1;
      assert (a + b)[..|a| + l] == a + b[..l];
      CompactConcat(a, b[..l]);
    }
  }

  lemma {:induction false} CompactKeeps(a: seq<Entry>)
    ensures forall x :: x in Compact(a) ==> x in a
    decreases |a|
  {
    if a == [] {
    } else {
      CompactKeeps(a[..|a| - 1]);
    }
  }

  lemma HeadsCompact(v: View, stuck: Entry, before: seq<Entry>, after: seq<Entry>)
    requires Heads(v, stuck, before, after)
    ensures Heads(v.(entries := Compact(v.entries)), stuck, Compact(before), Compact(after))
  {
    CompactConcat(before + [stuck], after);
    CompactConcat(before, [stuck]);
    assert Compact([stuck]) == [stuck];
    CompactKeeps(before);
  }

  lemma HeadsSlash(v: View, stuck: Entry, before: seq<Entry>, after: seq<Entry>, reds: seq<string>)
    requires Heads(v, stuck, before, after)
    ensures Heads(v.(entries := SlashScan(v.entries, reds)), stuck, SlashScan(before, reds), SlashScan(after, reds))
  {
    hide Buildable;
    var all, b := SlashScan(v.entries, reds), SlashScan(before, reds);
    assert all == b + [stuck] + SlashScan(after, reds);
    forall x | x in b && x.isInference && x.Live() ensures !Buildable(x) {
      var i :| 0 <= i < |b| && b[i] == x;
      assert before[i] in before;
    }
  }

  lemma {:induction false} TrackAppends(entries: seq<Entry>, txid: string, hash: string, daa: nat, outputs: seq<Output>,
                                        script: string, k: nat)
    requires k <= |outputs|
    ensures entries <= Track(entries, txid, hash, daa, outputs, script, k)
    decreases k
  {
    if k > 0 {
      TrackAppends(entries, txid, hash, daa, outputs, script, k - 1);
    }
  }

  lemma HeadsAppend(v: View, stuck: Entry, before: seq<Entry>, after: seq<Entry>, entries: seq<Entry>)
    requires Heads(v, stuck, before, after) && v.entries <= entries
    ensures Heads(v.(entries := entries), stuck, before, entries[|before| + 1..])
  {
    assert entries == entries[..|before| + 1] + entries[|before| + 1..];
    assert entries[..|before| + 1] == before + [stuck];
  }

  lemma HeadsBlock(v: View, b: Block, script: string, stuck: Entry, before: seq<Entry>, after: seq<Entry>)
    returns (before': seq<Entry>, after': seq<Entry>)
    requires Heads(v, stuck, before, after) && b.daa.Some?
    ensures var entries := Next(v, BlockSeen(b), script).0.entries;
      Heads(v.(entries := entries), stuck, before', after')
  {
    hide Heads, Compact, SlashScan, Track, Chosen, BuildClaim;
    before', after' := before, after;
    var entries := v.entries;
    if v.sinceCompact + 1 >= COMPACT_EVERY {
      HeadsCompact(v, stuck, before, after);
      before', after', entries := Compact(before), Compact(after), Compact(entries);
    }
    if b.verbose.Some? {
      var reds := b.verbose.value.reds;
      HeadsSlash(v.(entries := entries), stuck, before', after', reds);
      before', after', entries := SlashScan(before', reds), SlashScan(after', reds), SlashScan(entries, reds);
    }
    assert entries == Prune(v, b).entries;
    if UsableCoinbase(b).Some? {
      var cb := UsableCoinbase(b).value;
      var tracked := Track(entries, cb.txid.value, BlockHash(b), b.daa.value, cb.outputs, script, |cb.outputs|);
      TrackAppends(entries, cb.txid.value, BlockHash(b), b.daa.value, cb.outputs, script, |cb.outputs|);
      HeadsAppend(v.(entries := entries), stuck, before', after', tracked);
      after' := tracked[|before'| + 1..];
    }
  }

  lemma HeadsResponse(v: View, error: Option<string>, stuck: Entry, before: seq<Entry>, after: seq<Entry>)
    returns (before': seq<Entry>, after': seq<Entry>)
    requires Heads(v, stuck, before, after)
    ensures Heads(v.(entries := OnResponse(v, error).entries), stuck, before', after')
  {
    hide Buildable, Contains, IsOrphan, IsSeqLock;
    before', after' := before, after;
    if InFlight(v).Some? && Find(v.entries, InFlight(v).value).Some? {
      var i := Find(v.entries, InFlight(v).value).value;
      var e := Settle(v.entries[i], error, v.lastDaa);
      assert i != |before|;
      if i < |before| {
        before' := before[i := e];
        SettleKeepsKind(before[i], error, v.lastDaa);
        assert before[i] in before;
        forall x | x in before' && x.isInference && x.Live() ensures !Buildable(x) {
          assert x == e || x in before;
        }
      } else {
        after' := after[i - |before| - 1 := e];
      }
      assert OnResponse(v, error).entries == before' + [stuck] + after';
    }
  }

  lemma SettleKeepsKind(e: Entry, error: Option<string>, lastDaa: nat)
    ensures var s := Settle(e, error, lastDaa);
      s.isInference == e.isInference && Buildable(s) == Buildable(e) && (s.Live() ==> e.Live())
  {
    hide Contains, IsTxid;
  }

  // A claim is neither issued while the head of the line is eligible, nor is it the head's own.
  lemma HeadBlocks(v: View, e: Event, script: string, stuck: Entry, before: seq<Entry>, after: seq<Entry>)
    requires Issued(v, e, script).Some? && Distinct(Next(v, e, script).0.entries)
    requires Heads(v.(entries := Next(v, e, script).0.entries), stuck, before, after)
    ensures !Eligible(stuck, EventDaa(e)) && Issued(v, e, script).value.spends != stuck.outpoint
  {
    hide Next, Buildable, Issued, InFlight, UsableCoinbase, Eligible;
    ClaimIssuedExactly(v, e, script);
    LineIsKept(v, e, script);
    var line := Line(v, e.block, script);
    var i: nat :| IsNext(line, EventDaa(e), i) && Buildable(line[i])
      && Issued(v, e, script).value.spends == line[i].outpoint;
    assert line[|before|] == stuck && i != |before|;
    if Eligible(stuck, EventDaa(e)) {
      assert Precedes(line, i, |before|);
      assert line[i] == before[i] && before[i] in before;
      EligibleIsLive(line[i], EventDaa(e));
    }
  }

  lemma EligibleIsLive(e: Entry, daa: nat)
    requires Eligible(e, daa)
    ensures e.Live()
  {
  }

  lemma StarvedStep(v: View, e: Event, script: string, stuck: Entry)
    requires Starved(v, stuck)
    ensures Starved(Next(v, e, script).0, stuck)
    ensures Issued(v, e, script).Some? ==> !Eligible(stuck, EventDaa(e))
  {
    hide Heads, Next, Distinct, Issued, InFlight, Eligible, EntryStep;
    var before, after :| Heads(v, stuck, before, after);
    var v' := Next(v, e, script).0;
    var b, a := HeadsNext(v, e, script, stuck, before, after);
    StaysDistinct(v, e, script);
    if Issued(v, e, script).Some? {
      HeadBlocks(v, e, script, stuck, b, a);
      IssuedClaimIsSafe(v, e, script);
    }
    StepPending(v, e, script);
    StillHeads(v, v', stuck, b, a);
  }

  lemma StaysDistinct(v: View, e: Event, script: string)
    requires Distinct(v.entries)
    ensures Distinct(Next(v, e, script).0.entries)
  {
    StepEntry(v, e, script, Outpoint("", 0));
    hide Next, Distinct;
  }

  lemma StillHeads(v: View, v': View, stuck: Entry, before: seq<Entry>, after: seq<Entry>)
    requires Heads(v.(entries := v'.entries), stuck, before, after)
    requires InFlight(v') == InFlight(v) || InFlight(v') != Some(stuck.outpoint)
    ensures Heads(v', stuck, before, after)
  {
    hide Buildable;
  }

  lemma HeadsNext(v: View, e: Event, script: string, stuck: Entry, before: seq<Entry>, after: seq<Entry>)
    returns (before': seq<Entry>, after': seq<Entry>)
    requires Heads(v, stuck, before, after)
    ensures Heads(v.(entries := Next(v, e, script).0.entries), stuck, before', after')
  {
    hide Heads, OnResponse, TrackInference, HandleBlock;
    match e
    case BlockSeen(b) =>
      if b.daa.Some? {
        before', after' := HeadsBlock(v, b, script, stuck, before, after);
      } else {
        before', after' := before, after;
        UnscoredBlock(v, b, script);
      }
    case Response(error) =>
      before', after' := HeadsResponse(v, error, stuck, before, after);
    case InferencePaid(txid, daa, amount) =>
      InferenceAppends(v, txid, daa, amount);
      HeadsAppend(v, stuck, before, after, TrackInference(v, txid, daa, amount).entries);
      before', after' := before, TrackInference(v, txid, daa, amount).entries[|before| + 1..];
  }

  lemma UnscoredBlock(v: View, b: Block, script: string)
    requires b.daa.None?
    ensures Next(v, BlockSeen(b), script).0 == v
  {
  }

  lemma InferenceAppends(v: View, txid: string, daa: nat, amount: nat)
    ensures v.entries <= TrackInference(v, txid, daa, amount).entries
  {
  }

  /** How many claims a run issues at blocks at which the entry is eligible. */
  function IssuedOver(v: View, es: seq<Event>, script: string, stuck: Entry): nat
    decreases |es|
  {
    if es == [] then 0
    else Bit(Issued(v, es[0], script).Some? && Eligible(stuck, EventDaa(es[0])))
         + IssuedOver(Next(v, es[0], script).0, es[1..], script, stuck)
  }

  /** Starvation: once an inference entry that cannot be built into a claim heads the line, it
      stays there in every run, and no claim is issued at a block at which it is eligible. */
  lemma {:induction false} UnbuildableHeadStarves(v: View, es: seq<Event>, script: string, stuck: Entry)
    requires Starved(v, stuck)
    ensures Starved(Run(v, es, script), stuck) && IssuedOver(v, es, script, stuck) == 0
    decreases |es|
  {
    hide Starved, Next, Issued, Eligible;
    if es == [] {
    } else {
      StarvedStep(v, es[0], script, stuck);
      UnbuildableHeadStarves(Next(v, es[0], script).0, es[1..], script, stuck);
    }
  }
}
