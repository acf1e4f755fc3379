/** How often the watch channel hands out a value: between two deliveries to one receiver, what
    makes the second one repeat the first, and runs in which it does. */
module WatchDelivery {
  import opened Wrappers
  import opened Watch

  // ---- what happens between two deliveries ----

  /** How many values a run stores. */
  function Stores<T>(acts: seq<Action<T>>): nat
    decreases |acts|
  {
    if acts == [] then 0 else (if acts[0].Store? then 1 else 0) + Stores(acts[1..])
  }

  lemma HistoryStep<T>(s: State<T>, a: Action<T>)
    requires Enabled(s, a)
    ensures Do(s, a).history == if a.Store? then s.history + [a.v] else s.history
  {
  }

  lemma {:induction false} HistoryGrows<T>(s: State<T>, acts: seq<Action<T>>, s': State<T>)
    requires Runs(s, acts, s')
    ensures s.history <= s'.history && |s'.history| == |s.history| + Stores(acts)
    decreases |acts|
  {
    hide Enabled, Do;
    if acts == [] {
    } else {
      HistoryStep(s, acts[0]);
      HistoryGrows(Do(s, acts[0]), acts[1..], s');
    }
  }

  /** The receiver reads or is about to read, other than after a wake-up. */
  predicate ReadsAfterCheck(pc: ReceiverPc) {
    (pc.RRead? || pc.RClone?) && !pc.m.Woken?
  }

  /** What holds of a receiver since a delivery at which it had recorded the id `last`. */
  predicate Since<T>(s: State<T>, r: nat, last: nat) {
    && r in s.receivers && s.receivers[r].last >= last
    && (ReadsAfterCheck(s.receivers[r].pc) ==> s.receivers[r].last > last)
  }

  lemma SinceLoad<T>(s: State<T>, r': nat, r: nat, last: nat)
    requires Inv(s) && Enabled(s, LoadId(r')) && Since(s, r, last)
    ensures Since(Do(s, LoadId(r')), r, last)
  {
    hide NoLostWakeup, MutexLock, Counted, WriteLock;
  }

  lemma SinceOther<T>(s: State<T>, a: Action<T>, r: nat, last: nat)
    requires Enabled(s, a) && !a.LoadId? && Since(s, r, last) && a != DropReceiver(r)
    ensures Since(Do(s, a), r, last)
  {
  }

  lemma SinceStep<T>(s: State<T>, a: Action<T>, r: nat, last: nat)
    requires Inv(s) && Enabled(s, a) && Since(s, r, last) && a != DropReceiver(r)
    ensures Since(Do(s, a), r, last)
  {
    hide Inv, Enabled, Do, Since;
    if a.LoadId? {
      SinceLoad(s, a.r, r, last);
    } else {
      SinceOther(s, a, r, last);
    }
  }

  lemma {:induction false} SinceRun<T>(s: State<T>, acts: seq<Action<T>>, s': State<T>, r: nat, last: nat)
    requires Inv(s) && Runs(s, acts, s') && Since(s, r, last) && DropReceiver(r) !in acts
    ensures Since(s', r, last)
    decreases |acts|
  {
    hide Inv, Enabled, Do, Since;
    if acts == [] {
    } else {
      StepKeepsInv(s, acts[0]);
      SinceStep(s, acts[0], r, last);
      SinceRun(Do(s, acts[0]), acts[1..], s', r, last);
    }
  }

  /** The read at hand returns a value newer than the id the receiver has recorded. */
  predicate Torn<T>(s: State<T>, r: nat)
    requires r in s.receivers
  {
    s.receivers[r].last < |s.history|
  }

  /** Two reads of one receiver, the second after the run `acts` from the first. */
  ghost predicate TwoDeliveries<T>(s: State<T>, acts: seq<Action<T>>, s': State<T>, r: nat) {
    && Inv(s) && Enabled(s, CloneValue(r)) && Runs(Do(s, CloneValue(r)), acts, s')
    && Enabled(s', CloneValue(r)) && DropReceiver(r) !in acts
  }

  /** Exactly when a value is delivered again, in every mode of the second read: when nothing has
      been stored in between.  A read after a check can then only follow a torn one, that is,
      one that returned more than the id it had recorded; a read after a wake-up may follow any. */
  lemma RedeliveryExactly<T>(s: State<T>, acts: seq<Action<T>>, s': State<T>, r: nat)
    requires TwoDeliveries(s, acts, s', r)
    ensures |s'.history| == |s.history| <==> Stores(acts) == 0
    ensures Stores(acts) == 0 ==> s'.history == s.history
    ensures Stores(acts) == 0 && !s'.receivers[r].pc.m.Woken? ==> Torn(s, r)
  {
    hide NoLostWakeup, MutexLock, Counted, WriteLock, Stores, Runs;
    var s1 := Do(s, CloneValue(r));
    HistoryStep(s, CloneValue(r));
    HistoryGrows(s1, acts, s');
    StepKeepsInv(s, CloneValue(r));
    assert Since(s1, r, s.receivers[r].last);
    SinceRun(s1, acts, s', r, s.receivers[r].last);
    KeepsInv(s1, acts, s');
  }

  lemma KeepsInv<T>(s: State<T>, acts: seq<Action<T>>, s': State<T>)
    requires Inv(s) && Runs(s, acts, s')
    ensures Inv(s')
  {
    hide Inv, Runs;
    RunKeepsInv(s, acts, s');
  }

  // ---- torn reads ----

  lemma LastStep<T>(s: State<T>, a: Action<T>, r: nat)
    requires Enabled(s, a) && r in s.receivers && a != DropReceiver(r) && a != LoadId(r)
    ensures r in Do(s, a).receivers && Do(s, a).receivers[r].last == s.receivers[r].last
  {
  }

  lemma {:induction false} LastKept<T>(s: State<T>, acts: seq<Action<T>>, s': State<T>, r: nat)
    requires Runs(s, acts, s') && r in s.receivers && DropReceiver(r) !in acts && LoadId(r) !in acts
    ensures r in s'.receivers && s'.receivers[r].last == s.receivers[r].last
    decreases |acts|
  {
    hide Enabled, Do;
    if acts == [] {
    } else {
      LastStep(s, acts[0], r);
      LastKept(Do(s, acts[0]), acts[1..], s', r);
    }
  }

  /** A read is torn exactly when a value was stored between its load of the id and its read
      of the value, or had been stored before without its id being raised yet. */
  lemma TornExactly<T>(s: State<T>, acts: seq<Action<T>>, s': State<T>, r: nat)
    requires Inv(s) && Enabled(s, LoadId(r)) && Runs(Do(s, LoadId(r)), acts, s') && Enabled(s', CloneValue(r))
    requires Do(s, LoadId(r)).receivers[r].pc.RRead? && DropReceiver(r) !in acts && LoadId(r) !in acts
    ensures Torn(s', r) <==> Stores(acts) > 0 || |s.history| > s.id
  {
    hide NoLostWakeup, MutexLock, Counted, WriteLock, Stores, Runs;
    HistoryStep(s, LoadId(r));
    HistoryGrows(Do(s, LoadId(r)), acts, s');
    LastKept(Do(s, LoadId(r)), acts, s', r);
  }

  lemma {:induction false} IdGrows<T>(s: State<T>, acts: seq<Action<T>>, s': State<T>)
    requires Runs(s, acts, s')
    ensures s'.id >= s.id
    decreases |acts|
  {
    hide Enabled, Do;
    if acts == [] {
    } else {
      IdStep(s, acts[0]);
      IdGrows(Do(s, acts[0]), acts[1..], s');
    }
  }

  lemma IdStep<T>(s: State<T>, a: Action<T>)
    requires Enabled(s, a)
    ensures Do(s, a).id == if a.Bump? then s.id + 1 else s.id
  {
  }

  // After a read, with nothing stored since, the id counts every stored value.
  lemma IdIsCurrent<T>(s: State<T>, acts: seq<Action<T>>, s1: State<T>, r: nat)
    requires Inv(s) && Enabled(s, CloneValue(r)) && Runs(Do(s, CloneValue(r)), acts, s1) && Stores(acts) == 0
    ensures s1.history == s.history && s1.id == |s.history|
  {
    hide NoLostWakeup, MutexLock, Counted, Stores, Runs;
    var s0 := Do(s, CloneValue(r));
    StepKeepsInv(s, CloneValue(r));
    KeepsInv(s0, acts, s1);
    HistoryStep(s, CloneValue(r));
    HistoryGrows(s0, acts, s1);
    IdStep(s, CloneValue(r));
    IdGrows(s0, acts, s1);
  }

  /** The next check after a delivery, a poll or either check of a wait, with nothing stored and
      no id loaded in between, whatever the other threads do: it reads again exactly when the
      delivery was torn, and then the same value; otherwise the poll returns nothing and the wait
      goes on to the mutex, and then to the condition variable. */
  lemma CheckExactly<T>(s: State<T>, acts: seq<Action<T>>, s1: State<T>, r: nat, m: Mode)
    requires Inv(s) && Enabled(s, CloneValue(r)) && Runs(Do(s, CloneValue(r)), acts, s1) && !m.Woken?
    requires Stores(acts) == 0 && DropReceiver(r) !in acts && LoadId(r) !in acts
    requires ReceiverAt(s1, r, RId(m))
    ensures Do(s1, LoadId(r)).history == s.history
    ensures var otherwise := match m case Get => RIdle case First => RWantMutex case _ => RPark;
      ReceiverAt(Do(s1, LoadId(r)), r, if Torn(s, r) then RRead(m) else otherwise)
  {
    hide Inv, Enabled, Do, Stores, Runs;
    IdIsCurrent(s, acts, s1, r);
    LastAtRead(s, acts, s1, r);
    DoId(s1, r, m);
  }

  lemma LastAtRead<T>(s: State<T>, acts: seq<Action<T>>, s1: State<T>, r: nat)
    requires Inv(s) && Enabled(s, CloneValue(r)) && Runs(Do(s, CloneValue(r)), acts, s1)
    requires DropReceiver(r) !in acts && LoadId(r) !in acts
    ensures r in s.receivers && r in s1.receivers && s1.receivers[r].last == s.receivers[r].last
    ensures s.receivers[r].last <= |s.history|
  {
    hide Runs, NoLostWakeup, MutexLock, Counted, WriteLock;
    LastStep(s, CloneValue(r), r);
    LastKept(Do(s, CloneValue(r)), acts, s1, r);
  }

  // ---- runs that redeliver ----

  lemma {:induction false} Then<T>(s: State<T>, acts: seq<Action<T>>, s1: State<T>, a: Action<T>)
    requires Runs(s, acts, s1) && Enabled(s1, a)
    ensures Runs(s, acts + [a], Do(s1, a))
    decreases |acts|
  {
    hide Enabled, Do;
    if acts == [] {
      assert ([] + [a])[1..] == [];
      assert Runs(Do(s, a), [], Do(s, a));
    } else {
      Then(Do(s, acts[0]), acts[1..], s1, a);
      assert (acts + [a])[1..] == acts[1..] + [a];
    }
  }

  // What the actions of an undisturbed receiver do, one lemma each.

  lemma DoStart<T>(s: State<T>, r: nat)
    requires ReceiverAt(s, r, RIdle)
    ensures Enabled(s, StartGet(r)) && Do(s, StartGet(r)) == SetReceiver(s, r, s.receivers[r].(pc := RAlive(Get)))
    ensures Enabled(s, StartWait(r)) && Do(s, StartWait(r)) == SetReceiver(s, r, s.receivers[r].(pc := RAlive(First)))
  {
  }

  lemma DoAlive<T>(s: State<T>, r: nat, m: Mode)
    requires ReceiverAt(s, r, RAlive(m)) && s.alive
    ensures Enabled(s, LoadAlive(r)) && Do(s, LoadAlive(r)) == SetReceiver(s, r, s.receivers[r].(pc := RId(m)))
  {
  }

  lemma DoId<T>(s: State<T>, r: nat, m: Mode)
    requires ReceiverAt(s, r, RId(m))
    ensures Enabled(s, LoadId(r)) && Do(s, LoadId(r)) == SetReceiver(s, r, AfterId(s.receivers[r], m, s.id))
  {
  }

  lemma DoRead<T>(s: State<T>, r: nat, m: Mode)
    requires ReceiverAt(s, r, RRead(m)) && s.writer.None?
    ensures Enabled(s, AcquireRead(r)) && Do(s, AcquireRead(r)) == SetReceiver(s, r, s.receivers[r].(pc := RClone(m)))
  {
  }

  lemma DoLock<T>(s: State<T>, r: nat)
    requires (ReceiverAt(s, r, RWantMutex) || ReceiverAt(s, r, RWake)) && s.mutex.None?
    ensures Enabled(s, WaitLock(r))
    ensures var m := if s.receivers[r].pc.RWake? then Woken else Second;
      Do(s, WaitLock(r)) == SetReceiver(s, r, s.receivers[r].(pc := RAlive(m))).(mutex := Some(Rx(r)))
  {
  }

  lemma DoPark<T>(s: State<T>, r: nat)
    requires ReceiverAt(s, r, RPark)
    ensures Enabled(s, Park(r)) && Do(s, Park(r)) == SetReceiver(s, r, s.receivers[r].(pc := RParked)).(mutex := None)
  {
  }

  lemma DoWake<T>(s: State<T>, r: nat)
    requires ReceiverAt(s, r, RParked)
    ensures Enabled(s, Spurious(r)) && Do(s, Spurious(r)) == SetReceiver(s, r, s.receivers[r].(pc := RWake))
  {
  }

  /** A state of one sending thread and one receiver, outside the drop. */
  function Pair<T>(history: seq<T>, id: nat, writer: Option<nat>, mutex: Option<Holder>, tx: SenderPc, rx: Receiver)
    : State<T>
  {
    State(history, id, true, 1, writer, mutex, map[0 := tx], DAlive, map[0 := rx])
  }

  lemma SetPair<T>(s: State<T>, rx: Receiver, tx: SenderPc)
    requires s.receivers.Keys == {0} && s.senders.Keys == {0}
    ensures s.receivers[0 := rx] == map[0 := rx] && s.senders[0 := tx] == map[0 := tx]
  {
  }

  // One more action of the receiver.
  lemma RxThen<T>(s0: State<T>, acts: seq<Action<T>>, s: State<T>, a: Action<T>, rx: Receiver, mutex: Option<Holder>)
    requires s.receivers.Keys == {0} && s.senders.Keys == {0}
    requires Runs(s0, acts, s) && Enabled(s, a) && Do(s, a) == SetReceiver(s, 0, rx).(mutex := mutex)
    ensures Runs(s0, acts + [a], s.(receivers := map[0 := rx], mutex := mutex))
  {
    hide Do, Enabled, Runs;
    Then(s0, acts, s, a);
    SetPair(s, rx, SIdle);
  }

  // One more action of the sender.
  lemma TxThen<T>(s0: State<T>, acts: seq<Action<T>>, s: State<T>, a: Action<T>, tx: SenderPc, s': State<T>)
    requires s.receivers.Keys == {0} && s.senders.Keys == {0}
    requires Runs(s0, acts, s) && Enabled(s, a) && Do(s, a) == SetSender(s', 0, tx) && s'.senders == s.senders
    ensures Runs(s0, acts + [a], s'.(senders := map[0 := tx]))
  {
    hide Do, Enabled, Runs;
    Then(s0, acts, s, a);
    SetPair(s, Receiver(RIdle, 0, 0), tx);
  }

  lemma ThreeMore<T>(acts: seq<Action<T>>, a: Action<T>, b: Action<T>, c: Action<T>)
    ensures acts + [a] + [b] + [c] == acts + [a, b, c]
  {
  }

  // A check that finds a new id, up to its read of the value.
  lemma CheckThen<T>(s0: State<T>, acts: seq<Action<T>>, history: seq<T>, id: nat, tx: SenderPc, last: nat, d: nat)
    requires last != id && Runs(s0, acts, Pair(history, id, None, None, tx, Receiver(RIdle, last, d)))
    ensures Runs(s0, acts + [StartGet(0), LoadAlive(0), LoadId(0)],
              Pair(history, id, None, None, tx, Receiver(RRead(Get), id, d)))
  {
    hide Runs, Do, Enabled;
    var s := Pair(history, id, None, None, tx, Receiver(RIdle, last, d));
    DoStart(s, 0);
    RxThen(s0, acts, s, StartGet(0), Receiver(RAlive(Get), last, d), None);
    var s1 := Pair(history, id, None, None, tx, Receiver(RAlive(Get), last, d));
    DoAlive(s1, 0, Get);
    RxThen(s0, acts + [StartGet(0)], s1, LoadAlive(0), Receiver(RId(Get), last, d), None);
    var s2 := Pair(history, id, None, None, tx, Receiver(RId(Get), last, d));
    DoId(s2, 0, Get);
    RxThen(s0, acts + [StartGet(0)] + [LoadAlive(0)], s2, LoadId(0), Receiver(RRead(Get), id, d), None);
    ThreeMore(acts, StartGet(0), LoadAlive(0), LoadId(0));
  }

  lemma ReadThen<T>(s0: State<T>, acts: seq<Action<T>>, history: seq<T>, id: nat, tx: SenderPc, m: Mode,
                    last: nat, d: nat, mutex: Option<Holder>)
    requires Runs(s0, acts, Pair(history, id, None, mutex, tx, Receiver(RRead(m), last, d)))
    ensures Runs(s0, acts + [AcquireRead(0)], Pair(history, id, None, mutex, tx, Receiver(RClone(m), last, d)))
  {
    hide Runs, Do, Enabled;
    var s := Pair(history, id, None, mutex, tx, Receiver(RRead(m), last, d));
    DoRead(s, 0, m);
    RxThen(s0, acts, s, AcquireRead(0), Receiver(RClone(m), last, d), mutex);
  }

  // What the actions of an undisturbed send do.

  lemma DoSendCheck<T>(s: State<T>, t: nat)
    requires SenderAt(s, t, SIdle) && s.dropper.DAlive? && s.count != 0
    ensures Enabled(s, SendCheck(t)) && Do(s, SendCheck(t)) == SetSender(s, t, SWantWrite)
  {
  }

  lemma DoAcquireWrite<T>(s: State<T>, t: nat)
    requires SenderAt(s, t, SWantWrite) && s.writer.None? && NoReader(s)
    ensures Enabled(s, AcquireWrite(t)) && Do(s, AcquireWrite(t)) == SetSender(s.(writer := Some(t)), t, SHasWrite)
  {
  }

  lemma DoStore<T>(s: State<T>, t: nat, v: T)
    requires SenderAt(s, t, SHasWrite)
    ensures Enabled(s, Store(t, v)) && Do(s, Store(t, v)) == SetSender(s.(history := s.history + [v]), t, SWritten)
  {
  }

  lemma DoBump<T>(s: State<T>, t: nat)
    requires SenderAt(s, t, SWritten)
    ensures Enabled(s, Bump(t)) && Do(s, Bump(t)) == SetSender(s.(id := s.id + 1), t, SBumped)
  {
  }

  lemma DoReleaseWrite<T>(s: State<T>, t: nat)
    requires SenderAt(s, t, SBumped)
    ensures Enabled(s, ReleaseWrite(t)) && Do(s, ReleaseWrite(t)) == SetSender(s.(writer := None), t, SWantMutex)
  {
  }

  function SendActions<T>(v: T): seq<Action<T>> {
    [SendCheck(0), AcquireWrite(0), Store(0, v), Bump(0), ReleaseWrite(0)]
  }

  lemma LockThen<T>(s0: State<T>, acts: seq<Action<T>>, history: seq<T>, id: nat, rx: Receiver)
    requires !rx.pc.RClone? && Runs(s0, acts, Pair(history, id, None, None, SIdle, rx))
    ensures Runs(s0, acts + [SendCheck(0), AcquireWrite(0)], Pair(history, id, Some(0), None, SHasWrite, rx))
  {
    hide Runs, Do, Enabled;
    var s := Pair(history, id, None, None, SIdle, rx);
    DoSendCheck(s, 0);
    TxThen(s0, acts, s, SendCheck(0), SWantWrite, s);
    var s1 := Pair(history, id, None, None, SWantWrite, rx);
    DoAcquireWrite(s1, 0);
    TxThen(s0, acts + [SendCheck(0)], s1, AcquireWrite(0), SHasWrite, s1.(writer := Some(0)));
    assert acts + [SendCheck(0)] + [AcquireWrite(0)] == acts + [SendCheck(0), AcquireWrite(0)];
  }

  lemma StoreThen<T>(s0: State<T>, acts: seq<Action<T>>, history: seq<T>, id: nat, rx: Receiver, v: T)
    requires Runs(s0, acts, Pair(history, id, Some(0), None, SHasWrite, rx))
    ensures Runs(s0, acts + [Store(0, v), Bump(0)], Pair(history + [v], id + 1, Some(0), None, SBumped, rx))
  {
    hide Runs, Do, Enabled;
    var s := Pair(history, id, Some(0), None, SHasWrite, rx);
    DoStore(s, 0, v);
    TxThen(s0, acts, s, Store(0, v), SWritten, s.(history := history + [v]));
    var s1 := Pair(history + [v], id, Some(0), None, SWritten, rx);
    DoBump(s1, 0);
    TxThen(s0, acts + [Store(0, v)], s1, Bump(0), SBumped, s1.(id := id + 1));
    assert acts + [Store(0, v)] + [Bump(0)] == acts + [Store(0, v), Bump(0)];
  }

  // A send up to the release of the write lock, while the receiver is about to read.
  lemma SendThen<T>(s0: State<T>, acts: seq<Action<T>>, history: seq<T>, id: nat, rx: Receiver, v: T)
    requires !rx.pc.RClone? && Runs(s0, acts, Pair(history, id, None, None, SIdle, rx))
    ensures Runs(s0, acts + SendActions(v), Pair(history + [v], id + 1, None, None, SWantMutex, rx))
  {
    hide Runs, Do, Enabled;
    LockThen(s0, acts, history, id, rx);
    var a1 := acts + [SendCheck(0), AcquireWrite(0)];
    StoreThen(s0, a1, history, id, rx, v);
    var a2 := a1 + [Store(0, v), Bump(0)];
    var s := Pair(history + [v], id + 1, Some(0), None, SBumped, rx);
    DoReleaseWrite(s, 0);
    TxThen(s0, a2, s, ReleaseWrite(0), SWantMutex, s.(writer := None));
    assert a2 + [ReleaseWrite(0)] == acts + SendActions(v);
  }

  lemma InitIsPair<T>(init: T)
    ensures Init(init, {0}) == Pair([init], 1, None, None, SIdle, Receiver(RIdle, 0, 0))
  {
    var senders: set<nat> := {0};
    assert Init(init, senders).senders == map[0 := SIdle];
  }

  // A first poll that a send overtakes between its load of the id and its read.
  lemma TornPoll<T>(init: T, v: T) returns (acts: seq<Action<T>>)
    ensures var s := Pair([init] + [v], 2, None, None, SWantMutex, Receiver(RClone(Get), 1, 0));
      Runs(Init(init, {0}), acts, s) && Inv(s)
  {
    hide Runs, Inv, Do, Enabled, Pair;
    var s0 := Init(init, {0});
    InitIsPair(init);
    RunsNowhere(s0);
    CheckThen(s0, [], [init], 1, SIdle, 0, 0);
    acts := [] + [StartGet(0), LoadAlive(0), LoadId(0)];
    SendThen(s0, acts, [init], 1, Receiver(RRead(Get), 1, 0), v);
    acts := acts + SendActions(v);
    ReadThen(s0, acts, [init] + [v], 2, SWantMutex, Get, 1, 0, None);
    acts := acts + [AcquireRead(0)];
    InitInv(init, {0});
    KeepsInv(s0, acts, Pair([init] + [v], 2, None, None, SWantMutex, Receiver(RClone(Get), 1, 0)));
  }

  /** A reachable duplicate without any wake-up: a poll loads the id, a value is stored and the
      poll returns it; the next poll, with nothing stored in between, returns it again. */
  lemma PollRedelivers<T>(init: T, v: T)
    returns (first: seq<Action<T>>, s: State<T>, acts: seq<Action<T>>, s': State<T>)
    ensures Runs(Init(init, {0}), first, s) && TwoDeliveries(s, acts, s', 0)
    ensures Stores(acts) == 0 && s'.receivers[0].pc == RClone(Get) && s.history == s'.history == [init, v]
  {
    hide Runs, Inv, Do, Enabled;
    var h := [init] + [v];
    first := TornPoll(init, v);
    s := Pair(h, 2, None, None, SWantMutex, Receiver(RClone(Get), 1, 0));
    PairReads(h, 2, SWantMutex, 1, 0);
    var s1 := Pair(h, 2, None, None, SWantMutex, Receiver(RIdle, 1, 2));
    RunsNowhere(s1);
    CheckThen(s1, [], h, 2, SWantMutex, 1, 2);
    acts := [] + [StartGet(0), LoadAlive(0), LoadId(0)];
    ReadThen(s1, acts, h, 2, SWantMutex, Get, 2, 2, None);
    acts := acts + [AcquireRead(0)];
    s' := Pair(h, 2, None, None, SWantMutex, Receiver(RClone(Get), 2, 2));
    PairReads(h, 2, SWantMutex, 2, 2);
    NoStores(acts);
  }

  lemma RunsNowhere<T>(s: State<T>)
    ensures Runs(s, [], s)
  {
  }

  lemma {:induction false} NoStores<T>(acts: seq<Action<T>>)
    requires forall a :: a in acts ==> !a.Store?
    ensures Stores(acts) == 0
  {
    if acts != [] {
      NoStores(acts[1..]);
    }
  }

  // A check that finds nothing new.
  lemma CurrentThen<T>(s0: State<T>, acts: seq<Action<T>>, history: seq<T>, id: nat, tx: SenderPc, m: Mode, d: nat,
                       mutex: Option<Holder>)
    requires m.First? || m.Second?
    requires Runs(s0, acts, Pair(history, id, None, mutex, tx, Receiver(RAlive(m), id, d)))
    ensures var pc := if m.First? then RWantMutex else RPark;
      Runs(s0, acts + [LoadAlive(0), LoadId(0)], Pair(history, id, None, mutex, tx, Receiver(pc, id, d)))
  {
    hide Runs, Do, Enabled;
    var s := Pair(history, id, None, mutex, tx, Receiver(RAlive(m), id, d));
    DoAlive(s, 0, m);
    RxThen(s0, acts, s, LoadAlive(0), Receiver(RId(m), id, d), mutex);
    var s1 := Pair(history, id, None, mutex, tx, Receiver(RId(m), id, d));
    DoId(s1, 0, m);
    RxThen(s0, acts + [LoadAlive(0)], s1, LoadId(0), Receiver(if m.First? then RWantMutex else RPark, id, d), mutex);
    assert acts + [LoadAlive(0)] + [LoadId(0)] == acts + [LoadAlive(0), LoadId(0)];
  }

  // A wait that finds nothing new, up to the mutex.
  lemma WaitThen<T>(s0: State<T>, acts: seq<Action<T>>, history: seq<T>, id: nat, tx: SenderPc, d: nat)
    requires Runs(s0, acts, Pair(history, id, None, None, tx, Receiver(RIdle, id, d)))
    ensures Runs(s0, acts + [StartWait(0)] + [LoadAlive(0), LoadId(0)] + [WaitLock(0)],
              Pair(history, id, None, Some(Rx(0)), tx, Receiver(RAlive(Second), id, d)))
  {
    hide Runs, Do, Enabled;
    var s := Pair(history, id, None, None, tx, Receiver(RIdle, id, d));
    DoStart(s, 0);
    RxThen(s0, acts, s, StartWait(0), Receiver(RAlive(First), id, d), None);
    CurrentThen(s0, acts + [StartWait(0)], history, id, tx, First, d, None);
    var s1 := Pair(history, id, None, None, tx, Receiver(RWantMutex, id, d));
    DoLock(s1, 0);
    var a1 := acts + [StartWait(0)] + [LoadAlive(0), LoadId(0)];
    RxThen(s0, a1, s1, WaitLock(0), Receiver(RAlive(Second), id, d), Some(Rx(0)));
  }

  // The whole wait, up to the condition variable.
  lemma ParkThen<T>(s0: State<T>, acts: seq<Action<T>>, history: seq<T>, id: nat, tx: SenderPc, d: nat)
    requires Runs(s0, acts, Pair(history, id, None, None, tx, Receiver(RIdle, id, d)))
    ensures Runs(s0, acts + ParkActions(), Pair(history, id, None, None, tx, Receiver(RParked, id, d)))
  {
    hide Runs, Do, Enabled;
    WaitThen(s0, acts, history, id, tx, d);
    var a1 := acts + [StartWait(0)] + [LoadAlive(0), LoadId(0)] + [WaitLock(0)];
    CurrentThen(s0, a1, history, id, tx, Second, d, Some(Rx(0)));
    var s := Pair(history, id, None, Some(Rx(0)), tx, Receiver(RPark, id, d));
    DoPark(s, 0);
    RxThen(s0, a1 + [LoadAlive(0), LoadId(0)], s, Park(0), Receiver(RParked, id, d), None);
    assert a1 + [LoadAlive(0), LoadId(0)] + [Park(0)] == acts + ParkActions();
  }

  function ParkActions<T>(): seq<Action<T>> {
    [StartWait(0), LoadAlive(0), LoadId(0), WaitLock(0), LoadAlive(0), LoadId(0), Park(0)]
  }

  function WakeActions<T>(r: nat): seq<Action<T>> {
    [Spurious(r), WaitLock(r), LoadAlive(r), LoadId(r), AcquireRead(r)]
  }

  /** A parked receiver that has been given the current value can wake, with nothing stored and
      nobody sending, and return the same value again. */
  lemma WakeRedelivers<T>(s: State<T>, r: nat) returns (s': State<T>)
    requires Inv(s) && ReceiverAt(s, r, RParked) && s.receivers[r].last == s.id
    requires s.alive && s.mutex.None? && s.writer.None?
    ensures Runs(s, WakeActions(r), s') && Enabled(s', CloneValue(r)) && s'.receivers[r].pc == RClone(Woken)
    ensures s'.history == s.history && s.receivers[r].delivered == |s.history|
  {
    s' := WakeRun(s, r);
    hide NoLostWakeup, MutexLock, Counted, WriteLock, Runs;
  }

  lemma WakeRun<T>(s: State<T>, r: nat) returns (s': State<T>)
    requires ReceiverAt(s, r, RParked) && s.alive && s.mutex.None? && s.writer.None?
    ensures Runs(s, WakeActions(r), s') && ReceiverAt(s', r, RClone(Woken)) && s'.history == s.history
  {
    hide Runs, Do, Enabled;
    RunsNowhere(s);
    DoWake(s, r);
    Then(s, [], s, Spurious(r));
    var s1 := Do(s, Spurious(r));
    DoLock(s1, r);
    Then(s, [] + [Spurious(r)], s1, WaitLock(r));
    var s2 := Do(s1, WaitLock(r));
    DoAlive(s2, r, Woken);
    Then(s, [] + [Spurious(r)] + [WaitLock(r)], s2, LoadAlive(r));
    var s3 := Do(s2, LoadAlive(r));
    DoId(s3, r, Woken);
    Then(s, [] + [Spurious(r)] + [WaitLock(r)] + [LoadAlive(r)], s3, LoadId(r));
    var s4 := Do(s3, LoadId(r));
    DoRead(s4, r, Woken);
    Then(s, [] + [Spurious(r)] + [WaitLock(r)] + [LoadAlive(r)] + [LoadId(r)], s4, AcquireRead(r));
    s' := Do(s4, AcquireRead(r));
    assert [] + [Spurious(r)] + [WaitLock(r)] + [LoadAlive(r)] + [LoadId(r)] + [AcquireRead(r)] == WakeActions<T>(r);
  }

  // A first poll, up to the read of the initial value.
  lemma FirstPoll<T>(init: T) returns (acts: seq<Action<T>>)
    ensures Runs(Init(init, {0}), acts, Pair([init], 1, None, None, SIdle, Receiver(RClone(Get), 1, 0)))
    ensures Stores(acts) == 0 && Inv(Pair([init], 1, None, None, SIdle, Receiver(RClone(Get), 1, 0)))
  {
    hide Runs, Inv, Do, Enabled, Pair;
    var s0 := Init(init, {0});
    InitIsPair(init);
    RunsNowhere(s0);
    CheckThen(s0, [], [init], 1, SIdle, 0, 0);
    acts := [] + [StartGet(0), LoadAlive(0), LoadId(0)];
    ReadThen(s0, acts, [init], 1, SIdle, Get, 1, 0, None);
    acts := acts + [AcquireRead(0)];
    InitInv(init, {0});
    KeepsInv(s0, acts, Pair([init], 1, None, None, SIdle, Receiver(RClone(Get), 1, 0)));
    NoStores(acts);
  }

  // The read of the value.
  lemma PairReads<T>(history: seq<T>, id: nat, tx: SenderPc, last: nat, d: nat)
    ensures var s := Pair(history, id, None, None, tx, Receiver(RClone(Get), last, d));
      && Enabled(s, CloneValue(0))
      && Do(s, CloneValue(0)) == Pair(history, id, None, None, tx, Receiver(RIdle, last, |history|))
  {
    SetPair(Pair(history, id, None, None, tx, Receiver(RClone(Get), last, d)), Receiver(RIdle, last, |history|), SIdle);
  }

  // A wait and a spurious wake-up, up to the read of the value already delivered.
  lemma ParkAndWake<T>(history: seq<T>, id: nat, d: nat) returns (s': State<T>)
    requires Inv(Pair(history, id, None, None, SIdle, Receiver(RIdle, id, d)))
    ensures var s := Pair(history, id, None, None, SIdle, Receiver(RIdle, id, d));
      Runs(s, ParkActions() + WakeActions(0), s')
    ensures Enabled(s', CloneValue(0)) && s'.receivers[0].pc == RClone(Woken)
  {
    hide Runs, Inv, Do, Enabled;
    var s := Pair(history, id, None, None, SIdle, Receiver(RIdle, id, d));
    var parked := Pair(history, id, None, None, SIdle, Receiver(RParked, id, d));
    RunsNowhere(s);
    ParkThen(s, [], history, id, SIdle, d);
    assert [] + ParkActions<T>() == ParkActions<T>();
    KeepsInv(s, ParkActions(), parked);
    s' := WakeRedelivers(parked, 0);
    RunsConcat(s, ParkActions(), parked, WakeActions(0), s');
  }

  /** A reachable duplicate after a wake-up: a poll, a wait, and a spurious wake-up, without a
      single send. */
  lemma WaitRedelivers<T>(init: T)
    returns (first: seq<Action<T>>, s: State<T>, acts: seq<Action<T>>, s': State<T>)
    ensures Runs(Init(init, {0}), first, s) && TwoDeliveries(s, acts, s', 0)
    ensures Stores(first) == 0 && Stores(acts) == 0 && s'.receivers[0].pc == RClone(Woken) && !Torn(s, 0)
  {
    hide Runs, Inv, Do, Enabled;
    first := FirstPoll(init);
    s := Pair([init], 1, None, None, SIdle, Receiver(RClone(Get), 1, 0));
    PairReads([init], 1, SIdle, 1, 0);
    StepKeepsInv(s, CloneValue(0));
    s' := ParkAndWake([init], 1, 1);
    acts := ParkActions() + WakeActions(0);
    NoStores(acts);
  }

  lemma {:induction false} RunsConcat<T>(s: State<T>, a: seq<Action<T>>, s1: State<T>, b: seq<Action<T>>, s': State<T>)
    requires Runs(s, a, s1) && Runs(s1, b, s')
    ensures Runs(s, a + b, s')
    decreases |a|
  {
    hide Enabled, Do;
    if a == [] {
      assert a + b == b;
    } else {
      assert (a + b)[1..] == a[1..] + b;
      RunsConcat(Do(s, a[0]), a[1..], s1, b, s');
    }
  }
}
