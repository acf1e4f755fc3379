/** The escrow watcher as a transition system over its entries, without the derived
    indexes: what one block, one submit response, and one inference escrow do. */
module Escrow {
  import opened Wrappers

  const CHALLENGE_WINDOW: nat := 36_000
  const CLAIM_FEE: nat := 30_000_000
  const COMPACT_EVERY: nat := 2_000
  const ORPHAN_COOLDOWN: nat := 100
  const SEQ_LOCK_COOLDOWN: nat := 20
  const MAX_ORPHAN_RETRIES: nat := 10

  /** A transaction id and an output index. */
  datatype Outpoint = Outpoint(txid: string, index: nat)

  datatype Entry = Entry(
    outpoint: Outpoint,
    blockHash: string,
    confirmDaa: nat,
    amount: nat,
    claimed: bool,
    slashed: bool,
    orphanSlashed: bool,
    retries: nat,
    retryAfter: Option<nat>,
    isInference: bool)
  {
    predicate Live() { !claimed && !slashed }
  }

  datatype Output = Output(script: Option<string>, version: nat, amount: nat)

  /** A transaction; `txid` is absent when the node sent no verbose data. */
  datatype Tx = Tx(hasInputs: bool, txid: Option<string>, outputs: seq<Output>)

  datatype Verbose = Verbose(hash: string, reds: seq<string>)

  /** A block; the header's score and the verbose data may be absent. */
  datatype Block = Block(daa: Option<nat>, verbose: Option<Verbose>, txs: seq<Tx>)

  /** The claim transaction: the outpoint it spends and the amount it pays out. */
  datatype ClaimTx = ClaimTx(spends: Outpoint, pays: nat, sequence: nat)

  datatype View = View(
    entries: seq<Entry>,
    pendingTxid: Option<string>,
    pendingIndex: Option<nat>,
    lastDaa: nat,
    sinceCompact: nat)

  // ---- lookups ----

  /** The position of the first entry with an outpoint. */
  function Find(entries: seq<Entry>, o: Outpoint): (r: Option<nat>)
    ensures r.Some? ==> r.value < |entries| && entries[r.value].outpoint == o
    ensures r.Some? ==> forall i :: 0 <= i < r.value ==> entries[i].outpoint != o
    ensures r.None? ==> forall i :: 0 <= i < |entries| ==> entries[i].outpoint != o
  {
    if entries == [] then None
    else if entries[0].outpoint == o then Some(0)
    else match Find(entries[1..], o)
      case None => None
      case Some(i) =>
        assert forall j :: 1 <= j < |entries| ==> entries[j] == entries[1..][j - 1];
        Some(i + 1)
  }

  predicate Eligible(e: Entry, daa: nat) {
    && e.Live()
    && daa >= e.confirmDaa + CHALLENGE_WINDOW + 10
    && (e.retryAfter.Some? ==> daa >= e.retryAfter.value)
  }

  predicate EligibleAs(e: Entry, daa: nat, inference: bool) {
    Eligible(e, daa) && e.isInference == inference
  }

  /** The first eligible entry of one kind. */
  function FirstEligible(entries: seq<Entry>, daa: nat, inference: bool): (r: Option<nat>)
    ensures r.Some? ==> r.value < |entries| && EligibleAs(entries[r.value], daa, inference)
    ensures forall i :: 0 <= i < (if r.Some? then r.value else |entries|) ==> !EligibleAs(entries[i], daa, inference)
    decreases |entries|
  {
    if entries == [] then None
    else
      var l := |entries| - 1;
      match FirstEligible(entries[..l], daa, inference)
      case Some(i) => Some(i)
      case None => if EligibleAs(entries[l], daa, inference) then Some(l) else None
  }

  /** Inference entries come first. */
  function Chosen(entries: seq<Entry>, daa: nat): Option<nat> {
    match FirstEligible(entries, daa, true)
    case Some(i) => Some(i)
    case None => FirstEligible(entries, daa, false)
  }

  predicate IsHexDigit(c: char) {
    '0' <= c <= '9' || 'a' <= c <= 'f' || 'A' <= c <= 'F'
  }

  /** A string that decodes to 32 bytes. */
  predicate IsTxid(s: string) {
    |s| == 64 && forall i :: 0 <= i < |s| ==> IsHexDigit(s[i])
  }

  function BuildClaim(e: Entry): Option<ClaimTx> {
    if e.amount <= CLAIM_FEE || !IsTxid(e.outpoint.txid) then None
    else Some(ClaimTx(e.outpoint, e.amount - CLAIM_FEE, CHALLENGE_WINDOW))
  }

  // ---- one block ----

  /** Drops finished entries. */
  function Compact(entries: seq<Entry>): seq<Entry> {
    if entries == [] then []
    else
      var l := |entries| - 1;
      Compact(entries[..l]) + if entries[l].Live() then [entries[l]] else []
  }

  /** What a full scan for a set of red block hashes does to an entry. */
  function SlashOne(e: Entry, reds: seq<string>): Entry {
    if e.Live() && !e.isInference && e.blockHash != "" && e.blockHash in reds then e.(slashed := true) else e
  }

  function SlashScan(entries: seq<Entry>, reds: seq<string>): (r: seq<Entry>)
    ensures |r| == |entries|
  {
    seq(|entries|, i requires 0 <= i < |entries| => SlashOne(entries[i], reds))
  }

  function Lower(s: string): string {
    if s == "" then "" else [if 'A' <= s[0] <= 'Z' then s[0] - 'A' + 'a' else s[0]] + Lower(s[1..])
  }

  predicate Ours(out: Output, script: string) {
    out.script.Some? && Lower(out.script.value) == script && out.version == 0
  }

  function FreshEntry(txid: string, hash: string, daa: nat, k: nat, amount: nat): Entry {
    Entry(Outpoint(txid, k), hash, daa, amount, false, false, false, 0, None, false)
  }

  /** Tracks the escrow outputs among the first `k` outputs of a coinbase. */
  function Track(entries: seq<Entry>, txid: string, hash: string, daa: nat, outputs: seq<Output>,
                 script: string, k: nat): seq<Entry>
    requires k <= |outputs|
    decreases k
  {
    if k == 0 then entries
    else
      var before := Track(entries, txid, hash, daa, outputs, script, k - 1);
      if Ours(outputs[k - 1], script) && Find(before, Outpoint(txid, k - 1)).None?
      then before + [FreshEntry(txid, hash, daa, k - 1, outputs[k - 1].amount)]
      else before
  }

  function Coinbase(txs: seq<Tx>): Option<Tx> {
    if txs == [] then None else if !txs[0].hasInputs then Some(txs[0]) else Coinbase(txs[1..])
  }

  /** The claim that a scan issues, if nothing is in flight. */
  function FindClaim(v: View, daa: nat): (View, Option<ClaimTx>) {
    if v.pendingTxid.Some? then (v, None)
    else match Chosen(v.entries, daa)
      case None => (v, None)
      case Some(i) =>
        match BuildClaim(v.entries[i])
        case None => (v, None)
        case Some(tx) => (v.(pendingTxid := Some(tx.spends.txid), pendingIndex := Some(tx.spends.index)), Some(tx))
  }

  function MaybeCompact(v: View): View {
    if v.sinceCompact + 1 >= COMPACT_EVERY then v.(entries := Compact(v.entries), sinceCompact := 0)
    else v.(sinceCompact := v.sinceCompact + 1)
  }

  function SlashReds(v: View, b: Block): View {
    if b.verbose.Some? then v.(entries := SlashScan(v.entries, b.verbose.value.reds)) else v
  }

  function BlockHash(b: Block): string {
    if b.verbose.Some? then b.verbose.value.hash else ""
  }

  /** The coinbase of a block whose claims are looked at: present, with a non-empty id. */
  function UsableCoinbase(b: Block): Option<Tx> {
    match Coinbase(b.txs)
    case None => None
    case Some(cb) => if cb.txid.None? || cb.txid.value == "" then None else Some(cb)
  }

  function Prune(v: View, b: Block): View
    requires b.daa.Some?
  {
    SlashReds(MaybeCompact(v.(lastDaa := b.daa.value)), b)
  }

  function TrackBlock(v: View, b: Block, script: string): View
    requires b.daa.Some? && UsableCoinbase(b).Some?
  {
    var cb := UsableCoinbase(b).value;
    v.(entries := Track(v.entries, cb.txid.value, BlockHash(b), b.daa.value, cb.outputs, script, |cb.outputs|))
  }

  function HandleBlock(v: View, b: Block, script: string): (View, Option<ClaimTx>) {
    if b.daa.None? then (v, None)
    else
      var v1 := Prune(v, b);
      if UsableCoinbase(b).None? then (v1, None) else FindClaim(TrackBlock(v1, b, script), b.daa.value)
  }

  // ---- one submit response ----

  predicate OccursAt(s: string, t: string, i: int) {
    0 <= i <= |s| - |t| && s[i..i + |t|] == t
  }

  predicate Contains(s: string, t: string) {
    exists i | 0 <= i <= |s| - |t| :: OccursAt(s, t, i)
  }

  predicate IsOrphan(msg: string) { Contains(msg, "orphan") }
  predicate IsSeqLock(msg: string) { !IsOrphan(msg) && Contains(msg, "sequence lock") }

  /** What a response does to the entry whose claim was in flight. */
  function Settle(e: Entry, error: Option<string>, lastDaa: nat): Entry {
    if error.None? then e.(claimed := true)
    else if IsOrphan(error.value) then
      if e.retries + 1 >= MAX_ORPHAN_RETRIES then e.(retries := e.retries + 1, orphanSlashed := false, slashed := true)
      else e.(retries := e.retries + 1, orphanSlashed := true, retryAfter := Some(lastDaa + ORPHAN_COOLDOWN))
    else if IsSeqLock(error.value) then e.(retryAfter := Some(lastDaa + SEQ_LOCK_COOLDOWN))
    else e.(slashed := true)
  }

  function InFlight(v: View): Option<Outpoint> {
    if v.pendingTxid.None? then None
    else Some(Outpoint(v.pendingTxid.value, if v.pendingIndex.Some? then v.pendingIndex.value else 1))
  }

  function OnResponse(v: View, error: Option<string>): View {
    match InFlight(v)
    case None => v
    case Some(o) =>
      var v' := v.(pendingTxid := None, pendingIndex := None);
      match Find(v.entries, o)
      case None => v'
      case Some(i) => v'.(entries := v.entries[i := Settle(v.entries[i], error, v.lastDaa)])
  }

  // ---- one inference escrow ----

  function TrackInference(v: View, txid: string, daa: nat, amount: nat): View {
    if amount == 0 || Find(v.entries, Outpoint(txid, 1)).Some? then v
    else v.(entries := v.entries + [Entry(Outpoint(txid, 1), "", daa, amount, false, false, false, 0, None, true)])
  }

  // ---- runs ----

  datatype Event =
    | BlockSeen(block: Block)
    | Response(error: Option<string>)
    | InferencePaid(txid: string, daa: nat, amount: nat)

  function Next(v: View, e: Event, script: string): (View, Option<ClaimTx>) {
    match e
    case BlockSeen(b) => HandleBlock(v, b, script)
    case Response(error) => (OnResponse(v, error), None)
    case InferencePaid(txid, daa, amount) => (TrackInference(v, txid, daa, amount), None)
  }

  function Run(v: View, es: seq<Event>, script: string): View
    decreases |es|
  {
    if es == [] then v else Run(Next(v, es[0], script).0, es[1..], script)
  }
}
