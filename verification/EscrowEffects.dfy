/** What every kind of event does to one entry, field by field, and when a claim falls due. */
module EscrowEffects {
  import opened Wrappers
  import opened Escrow
  import opened EscrowSafety
  import opened EscrowStarvation

  const HEX_DIGITS: string := "0123456789abcdefABCDEF"
  const LOWER: string := "abcdefghijklmnopqrstuvwxyz"
  const UPPER: string := "ABCDEFGHIJKLMNOPQRSTUVWXYZ"

  // ---- a scored block ----

  /** One of the hashes that the block reports as red. */
  predicate NamedRed(b: Block, hash: string) {
    b.verbose.Some? && hash in b.verbose.value.reds
  }

  lemma PruneEffect(v: View, b: Block, o: Outpoint)
    requires Distinct(v.entries) && b.daa.Some? && Get(v.entries, o).Some?
    ensures Distinct(Prune(v, b).entries)
    ensures var e := Get(v.entries, o).value;
      Get(Prune(v, b).entries, o) ==
        if e.claimed || e.slashed then if v.sinceCompact + 1 >= 2_000 then None else Some(e)
        else Some(e.(slashed := !e.isInference && e.blockHash != "" && NamedRed(b, e.blockHash)))
  {
    hide Find, Compact, Get, SlashScan, Distinct;
    GetCompact(v.entries, o);
    if b.verbose.Some? {
      GetSlashed(MaybeCompact(v.(lastDaa := b.daa.value)).entries, b.verbose.value.reds, o);
    }
  }

  lemma BlockKeepsPruned(v: View, b: Block, script: string, o: Outpoint)
    requires Distinct(v.entries) && b.daa.Some? && Get(Prune(v, b).entries, o).Some?
    ensures Get(Next(v, BlockSeen(b), script).0.entries, o) == Get(Prune(v, b).entries, o)
  {
    hide Find, Get, Track, Prune, Chosen, BuildClaim, Distinct;
    PruneEntry(v, b, o);
    if UsableCoinbase(b).Some? {
      var cb := UsableCoinbase(b).value;
      GetTracked(Prune(v, b).entries, cb.txid.value, BlockHash(b), b.daa.value, cb.outputs, script, |cb.outputs|, o);
    }
  }

  /** A scored block slashes a live coinbase entry exactly when it names the entry's block red,
      and changes nothing else about any entry that it keeps; it keeps every live one, and the
      finished ones except at a compaction. */
  lemma BlockEffect(v: View, b: Block, script: string, o: Outpoint)
    requires Distinct(v.entries) && b.daa.Some? && Get(v.entries, o).Some?
    requires var e := Get(v.entries, o).value; !(e.claimed || e.slashed) || v.sinceCompact + 1 < 2_000
    ensures var e := Get(v.entries, o).value;
      Get(Next(v, BlockSeen(b), script).0.entries, o) == Some(e.(slashed :=
        || e.slashed
        || (!e.claimed && !e.isInference && e.blockHash != "" && NamedRed(b, e.blockHash))))
  {
    hide Next, Get, Prune, Distinct;
    PruneEffect(v, b, o);
    BlockKeepsPruned(v, b, script, o);
  }

  /** An entry whose block is named red is claimed neither by that block nor in any run after
      it that does not track the outpoint anew. */
  lemma RedIsNeverClaimed(v: View, b: Block, script: string, o: Outpoint, es: seq<Event>)
    requires Distinct(v.entries) && b.daa.Some? && b.verbose.Some? && Get(v.entries, o).Some?
    requires var e := Get(v.entries, o).value;
      e.Live() && !e.isInference && e.blockHash != "" && e.blockHash in b.verbose.value.reds
    ensures Issued(v, BlockSeen(b), script).Some? ==> Issued(v, BlockSeen(b), script).value.spends != o
    ensures var v' := Next(v, BlockSeen(b), script).0;
      !EverTracks(v', es, script, o) ==> ClaimsOf(v', es, script, o) == 0
  {
    hide Next, Get, Distinct, EverTracks, ClaimsOf, Issued;
    BlockEffect(v, b, script, o);
    StepEntry(v, BlockSeen(b), script, o);
    var v' := Next(v, BlockSeen(b), script).0;
    if Issued(v, BlockSeen(b), script).Some? {
      IssuedClaimIsSafe(v, BlockSeen(b), script);
    }
    if !EverTracks(v', es, script, o) {
      FinishedIsNeverClaimed(v', es, script, o);
    }
  }

  /** The first transaction without inputs is the coinbase. */
  lemma {:induction false} CoinbaseIsFirst(txs: seq<Tx>, c: nat)
    requires c < |txs| && !txs[c].hasInputs && forall i :: 0 <= i < c ==> txs[i].hasInputs
    ensures Coinbase(txs) == Some(txs[c])
    decreases c
  {
    if c > 0 {
      assert txs[1..][c - 1] == txs[c];
      CoinbaseIsFirst(txs[1..], c - 1);
    }
  }

  /** Script comparison ignores the case of the letters A to Z and of nothing else. */
  lemma {:induction false} LowerIsPointwise(s: string, i: nat)
    requires i < |s|
    ensures |Lower(s)| == |s|
    ensures forall k :: 0 <= k < 26 && s[i] == UPPER[k] ==> Lower(s)[i] == LOWER[k]
    ensures s[i] !in UPPER ==> Lower(s)[i] == s[i]
    decreases |s|
  {
    if i > 0 {
      LowerIsPointwise(s[1..], i - 1);
    } else {
      LowerLength(s[1..]);
      UpperIsRange(s[0]);
    }
  }

  lemma {:induction false} LowerLength(s: string)
    ensures |Lower(s)| == |s|
    decreases |s|
  {
    if s != "" {
      LowerLength(s[1..]);
    }
  }

  lemma UpperIsRange(c: char)
    ensures c in UPPER <==> 'A' <= c <= 'Z'
    ensures forall k :: 0 <= k < 26 && c == UPPER[k] ==> LOWER[k] == c - 'A' + 'a'
  {
    LetterAt(0);
    hide UPPER, LOWER;
    forall k | 0 <= k < 26 ensures UPPER[k] == 'A' + k as char && LOWER[k] == 'a' + k as char {
      LetterAt(k);
    }
    if 'A' <= c <= 'Z' {
      assert UPPER[(c - 'A') as nat] == c;
    }
  }

  lemma LetterAt(k: nat)
    requires k < 26
    ensures |UPPER| == |LOWER| == 26 && UPPER[k] == 'A' + k as char && LOWER[k] == 'a' + k as char
  {
  }

  // What tracking adds is the fresh entry of an output of ours.
  lemma {:induction false} TrackedIsOurs(entries: seq<Entry>, txid: string, hash: string, daa: nat,
                                         outputs: seq<Output>, script: string, k: nat, o: Outpoint)
    requires Distinct(entries) && k <= |outputs| && Get(entries, o).None?
    ensures var r := Get(Track(entries, txid, hash, daa, outputs, script, k), o);
      r.Some? ==>
        && o.txid == txid && o.index < k && Ours(outputs[o.index], script)
        && r.value == Entry(o, hash, daa, outputs[o.index].amount, false, false, false, 0, None, false)
    decreases k
  {
    if k == 0 {
    } else {
      hide Distinct, Find, Ours;
      var before := Track(entries, txid, hash, daa, outputs, script, k - 1);
      var e := FreshEntry(txid, hash, daa, k - 1, outputs[k - 1].amount);
      TrackedIsOurs(entries, txid, hash, daa, outputs, script, k - 1, o);
      GetSnoc(before, e, o);
    }
  }

  /** A block starts tracking only outputs of its coinbase (the first transaction without
      inputs, `c`) that pay the watched script, with the block's score and hash, the output's
      amount, and nothing yet claimed, slashed or rejected. */
  lemma TrackedEntryExactly(v: View, b: Block, script: string, o: Outpoint, c: nat)
    requires Distinct(v.entries) && Tracks(v, BlockSeen(b), script, o)
    requires c < |b.txs| && !b.txs[c].hasInputs && forall i :: 0 <= i < c ==> b.txs[i].hasInputs
    ensures b.daa.Some? && b.txs[c].txid == Some(o.txid) && o.txid != "" && o.index < |b.txs[c].outputs|
    ensures var out := b.txs[c].outputs[o.index];
      && out.script.Some? && Lower(out.script.value) == script && out.version == 0
      && Get(Next(v, BlockSeen(b), script).0.entries, o) ==
         Some(Entry(o, if b.verbose.Some? then b.verbose.value.hash else "", b.daa.value, out.amount,
                    false, false, false, 0, None, false))
  {
    hide Find, Get, Track, Prune, Chosen, BuildClaim, Distinct, Lower, Coinbase;
    CoinbaseIsFirst(b.txs, c);
    PruneEntry(v, b, o);
    var cb := UsableCoinbase(b).value;
    TrackedIsOurs(Prune(v, b).entries, cb.txid.value, BlockHash(b), b.daa.value, cb.outputs, script, |cb.outputs|, o);
  }

  /** The other direction: an untracked output of the coinbase that pays the watched script is
      tracked. */
  lemma PaidOutputIsTracked(v: View, b: Block, script: string, o: Outpoint, c: nat)
    requires Distinct(v.entries) && Get(v.entries, o).None? && b.daa.Some?
    requires c < |b.txs| && !b.txs[c].hasInputs && forall i :: 0 <= i < c ==> b.txs[i].hasInputs
    requires b.txs[c].txid == Some(o.txid) && o.txid != "" && o.index < |b.txs[c].outputs|
    requires var out := b.txs[c].outputs[o.index];
      out.script.Some? && Lower(out.script.value) == script && out.version == 0
    ensures Tracks(v, BlockSeen(b), script, o)
  {
    hide Get, Track, Prune, Distinct, Lower, Coinbase, Tracks;
    CoinbaseIsFirst(b.txs, c);
    RedeliveryRetracksExactly(v, b, script, o);
  }

  // ---- a submit response ----

  /** A message contains a phrase exactly when it is something, the phrase, and something. */
  lemma ContainsExactly(s: string, t: string)
    ensures Contains(s, t) <==> exists a, b :: s == Around(a, t, b)
  {
    if Contains(s, t) {
      var i :| 0 <= i <= |s| - |t| && OccursAt(s, t, i);
      assert s == Around(s[..i], t, s[i + |t|..]);
    }
    if a, b :| s == Around(a, t, b) {
      assert OccursAt(s, t, |a|);
    }
  }

  function Around(a: string, t: string, b: string): string {
    a + t + b
  }

  /** The error text says that the claim was an orphan. */
  ghost predicate SaysOrphan(error: Option<string>) {
    error.Some? && exists a, b :: error.value == Around(a, "orphan", b)
  }

  /** The error text speaks of a sequence lock, and of no orphan. */
  ghost predicate SaysSequenceLock(error: Option<string>) {
    error.Some? && !SaysOrphan(error) && exists a, b :: error.value == Around(a, "sequence lock", b)
  }

  /** Field by field, what a response does to the entry whose claim was in flight. Accepted:
      claimed. Orphan: counted, waits 100, and the tenth slashes. Sequence lock: waits 20. Any
      other rejection: slashed. */
  lemma SettleFields(e: Entry, error: Option<string>, lastDaa: nat)
    ensures var r, tenth := Settle(e, error, lastDaa), SaysOrphan(error) && e.retries >= 9;
      && (r.claimed <==> e.claimed || error.None?)
      && (r.slashed <==> e.slashed || tenth || (error.Some? && !SaysOrphan(error) && !SaysSequenceLock(error)))
      && r.retries == e.retries + (if SaysOrphan(error) then 1 else 0)
    ensures var r, tenth := Settle(e, error, lastDaa), SaysOrphan(error) && e.retries >= 9;
      && r.retryAfter == (if SaysOrphan(error) && !tenth then Some(lastDaa + 100)
                          else if SaysSequenceLock(error) then Some(lastDaa + 20) else e.retryAfter)
      && r.orphanSlashed == (if SaysOrphan(error) then !tenth else e.orphanSlashed)
      && r.outpoint == e.outpoint && r.blockHash == e.blockHash && r.confirmDaa == e.confirmDaa
      && r.amount == e.amount && r.isInference == e.isInference
  {
    hide Contains;
    if error.Some? {
      ContainsExactly(error.value, "orphan");
      ContainsExactly(error.value, "sequence lock");
    }
  }

  /** A response clears the claim in flight and settles its entry, whose index is 1 if none was
      recorded, and no other; without a claim in flight it does nothing. */
  lemma ResponseSettlesExactly(v: View, error: Option<string>, script: string, o: Outpoint)
    requires Distinct(v.entries)
    ensures var v' := Next(v, Response(error), script).0;
      var index := if v.pendingIndex.Some? then v.pendingIndex.value else 1;
      var mine := v.pendingTxid == Some(o.txid) && o.index == index;
      Get(v'.entries, o) == if Get(v.entries, o).Some? && mine
                            then Some(Settle(Get(v.entries, o).value, error, v.lastDaa)) else Get(v.entries, o)
    ensures v.pendingTxid.None? ==> Next(v, Response(error), script).0 == v
    ensures v.pendingTxid.Some? ==>
      var v' := Next(v, Response(error), script).0;
      v'.pendingTxid.None? && v'.pendingIndex.None? && |v'.entries| == |v.entries|
  {
    hide Contains, Settle, Find, Distinct;
    if InFlight(v).Some? && Find(v.entries, InFlight(v).value).Some? {
      var i := Find(v.entries, InFlight(v).value).value;
      SettleKeepsOutpoint(v.entries[i], error, v.lastDaa);
      GetReplaced(v.entries, i, Settle(v.entries[i], error, v.lastDaa), o);
    }
  }

  lemma SettleKeepsOutpoint(e: Entry, error: Option<string>, lastDaa: nat)
    ensures Settle(e, error, lastDaa).outpoint == e.outpoint
  {
    hide Contains;
  }

  // ---- an inference escrow ----

  /** An inference escrow of a positive amount is tracked once, as output 1 of its payment, with
      its score and amount and no block hash; nothing else changes. */
  lemma InferenceTrackedExactly(v: View, txid: string, daa: nat, amount: nat, script: string, o: Outpoint)
    ensures var v', adds := Next(v, InferencePaid(txid, daa, amount), script).0,
                            amount > 0 && o == Outpoint(txid, 1) && Get(v.entries, o).None?;
      Get(v'.entries, o) == if adds then Some(Entry(o, "", daa, amount, false, false, false, 0, None, true))
                            else Get(v.entries, o)
    ensures Next(v, InferencePaid(txid, daa, amount), script).0.(entries := v.entries) == v
  {
    hide Find;
    GetSnoc(v.entries, Entry(Outpoint(txid, 1), "", daa, amount, false, false, false, 0, None, true), o);
  }

  // ---- every event ----

  /** The last score is that of the last scored block. */
  lemma LastScoreExactly(v: View, e: Event, script: string)
    ensures Next(v, e, script).0.lastDaa ==
      if e.BlockSeen? && e.block.daa.Some? then e.block.daa.value else v.lastDaa
  {
    hide Find, Track, Compact, SlashScan, Chosen, BuildClaim, Contains, Settle;
  }

  // ---- claims ----

  /** An entry whose claim is due at a block: unfinished, 36 010 past its confirmation and past
      its cooldown. */
  predicate Due(e: Entry, daa: nat) {
    !e.claimed && !e.slashed && daa >= e.confirmDaa + 36_010 && (e.retryAfter.Some? ==> daa >= e.retryAfter.value)
  }

  /** A claim can be built: the amount covers the fee, and the transaction id is 32 bytes in
      hexadecimal. */
  predicate Payable(e: Entry) {
    && e.amount > 30_000_000 && |e.outpoint.txid| == 64
    && forall i :: 0 <= i < 64 ==> e.outpoint.txid[i] in HEX_DIGITS
  }

  lemma PayableExactly(e: Entry)
    ensures Payable(e) <==> Buildable(e)
  {
    forall i | 0 <= i < |e.outpoint.txid| ensures e.outpoint.txid[i] in HEX_DIGITS <==> IsHexDigit(e.outpoint.txid[i]) {
      HexDigitExactly(e.outpoint.txid[i]);
    }
  }

  lemma HexDigitExactly(c: char)
    ensures c in HEX_DIGITS <==> IsHexDigit(c)
  {
    if '0' <= c <= '9' {
      assert HEX_DIGITS[(c - '0') as nat] == c;
    } else if 'a' <= c <= 'f' {
      assert HEX_DIGITS[(c - 'a') as nat + 10] == c;
    } else if 'A' <= c <= 'F' {
      assert HEX_DIGITS[(c - 'A') as nat + 16] == c;
    }
  }

  lemma DueIsEligible(e: Entry, daa: nat)
    ensures Due(e, daa) <==> Eligible(e, daa)
  {
  }

  /** A scored block with a coinbase, nothing in flight and some claim due issues one, provided
      every due claim can be built. */
  lemma DueClaimIsIssued(v: View, b: Block, script: string, e: Entry)
    requires b.daa.Some? && UsableCoinbase(b).Some? && v.pendingTxid.None?
    requires e in Next(v, BlockSeen(b), script).0.entries && Due(e, b.daa.value)
    requires forall x :: x in Next(v, BlockSeen(b), script).0.entries && Due(x, b.daa.value) ==> Payable(x)
    ensures Issued(v, BlockSeen(b), script).Some?
  {
    hide Next, Issued, Due, Payable, IsNext, UsableCoinbase, Line, Eligible, Prune;
    var daa, line := b.daa.value, Line(v, b, script);
    LineIsKept(v, BlockSeen(b), script);
    var j :| 0 <= j < |line| && line[j] == e;
    DueIsEligible(e, daa);
    var i := SomeoneIsNext(line, daa, j);
    DueIsEligible(line[i], daa);
    PayableExactly(line[i]);
    ClaimIssuedExactly(v, BlockSeen(b), script);
  }

  lemma SomeoneIsNext(line: seq<Entry>, daa: nat, j: nat) returns (i: nat)
    requires j < |line| && Eligible(line[j], daa)
    ensures i < |line| && Eligible(line[i], daa) && IsNext(line, daa, i)
  {
    hide Eligible, IsNext;
    assert EligibleAs(line[j], daa, line[j].isInference);
    i := Chosen(line, daa).value;
    ChosenIsNext(line, daa, i);
  }

  /** An issued claim spends an entry that is due and payable, and waits 36 000 blocks. */
  lemma ClaimIsWellFormed(v: View, e: Event, script: string)
    requires Issued(v, e, script).Some?
    ensures Issued(v, e, script).value.sequence == 36_000
    ensures exists x ::
      && x in Next(v, e, script).0.entries && x.outpoint == Issued(v, e, script).value.spends
      && Due(x, EventDaa(e)) && Payable(x)
  {
    ClaimWaits(v, e, script);
    ClaimIssuedExactly(v, e, script);
    LineIsKept(v, e, script);
    hide Next, Issued, Due, Payable, UsableCoinbase, Line, Eligible, Buildable;
    var line := Line(v, e.block, script);
    var i: nat :| IsNext(line, EventDaa(e), i) && Buildable(line[i])
      && Issued(v, e, script).value.spends == line[i].outpoint;
    DueIsEligible(line[i], EventDaa(e));
    PayableExactly(line[i]);
    assert line[i] in line;
  }

  lemma ClaimWaits(v: View, e: Event, script: string)
    requires Issued(v, e, script).Some?
    ensures Issued(v, e, script).value.sequence == 36_000
  {
    hide Find, Track, Prune, Chosen, IsTxid;
  }
}
