/** The watch channel as an interleaving of atomic actions: the read-write lock, the id
    counter, the mutex, the condition variable and the alive flag. */
module Watch {
  import opened Wrappers

  /** Where a sending thread stands in `send`. */
  datatype SenderPc = SIdle | SWantWrite | SHasWrite | SWritten | SBumped | SWantMutex | SHasMutex | SNotified

  /** Where the sender's drop stands. */
  datatype DropPc = DAlive | DWantMutex | DHasMutex | DNotified | DDone

  /** `get_changed`; the first and second check of `wait_for_change`; its end after the wait. */
  datatype Mode = Get | First | Second | Woken

  datatype ReceiverPc =
    | RIdle
    | RAlive(m: Mode)      // about to load the alive flag
    | RId(m: Mode)         // about to load the id
    | RRead(m: Mode)       // about to take the read lock
    | RClone(m: Mode)      // holds the read lock
    | RWantMutex
    | RPark                // holds the mutex, about to wait
    | RParked
    | RWake                // notified, wants the mutex back
    | RRelease             // holds the mutex, about to return

  /** `delivered` counts the values stored up to the one last returned; it is specification only. */
  datatype Receiver = Receiver(pc: ReceiverPc, last: nat, delivered: nat)

  datatype Holder = Tx(t: nat) | Rx(r: nat) | Dropper

  datatype State<T> = State(
    history: seq<T>,            // every value stored so far; the last one is in the lock
    id: nat,
    alive: bool,
    count: int,
    writer: Option<nat>,
    mutex: Option<Holder>,
    senders: map<nat, SenderPc>,
    dropper: DropPc,
    receivers: map<nat, Receiver>)

  function Init<T>(init: T, senders: set<nat>): State<T> {
    State([init], 1, true, 1, None, None, map t | t in senders :: SIdle, DAlive, map[0 := Receiver(RIdle, 0, 0)])
  }

  datatype Action<T> =
    | SendCheck(t: nat) | AcquireWrite(t: nat) | Store(t: nat, v: T) | Bump(t: nat) | ReleaseWrite(t: nat)
    | SendLock(t: nat) | SendNotify(t: nat) | SendUnlock(t: nat)
    | DropStore | DropLock | DropNotify | DropUnlock
    | StartGet(r: nat) | StartWait(r: nat) | LoadAlive(r: nat) | LoadId(r: nat)
    | AcquireRead(r: nat) | CloneValue(r: nat) | WaitLock(r: nat) | Park(r: nat)
    | Spurious(r: nat) | WaitUnlock(r: nat)
    | CloneReceiver(r: nat, copy: nat) | DropReceiver(r: nat)

  /** The sender is being dropped. */
  predicate Drops<T>(a: Action<T>) {
    a.DropStore? || a.DropLock? || a.DropNotify? || a.DropUnlock?
  }

  /** A receiver is cloned or dropped. */
  predicate ComesOrGoes<T>(a: Action<T>) {
    a.CloneReceiver? || a.DropReceiver?
  }

  /** A receiving thread checks for a value. */
  predicate Checks<T>(a: Action<T>) {
    a.StartGet? || a.StartWait? || a.LoadAlive? || a.LoadId? || a.AcquireRead? || a.CloneValue?
  }

  /** A receiving thread waits, returns, or is cloned or dropped. */
  predicate Waits<T>(a: Action<T>) {
    a.WaitLock? || a.Park? || a.Spurious? || a.WaitUnlock? || ComesOrGoes(a)
  }

  // ---- which actions are enabled ----

  predicate SenderAt<T>(s: State<T>, t: nat, pc: SenderPc) {
    t in s.senders && s.senders[t] == pc
  }

  predicate ReceiverAt<T>(s: State<T>, r: nat, pc: ReceiverPc) {
    r in s.receivers && s.receivers[r].pc == pc
  }

  predicate NoReader<T>(s: State<T>) {
    forall r :: r in s.receivers ==> !s.receivers[r].pc.RClone?
  }

  predicate Enabled<T>(s: State<T>, a: Action<T>) {
    match a
    case SendCheck(t) => SenderAt(s, t, SIdle) && s.dropper == DAlive
    case AcquireWrite(t) => SenderAt(s, t, SWantWrite) && s.writer.None? && NoReader(s)
    case Store(t, _) => SenderAt(s, t, SHasWrite)
    case Bump(t) => SenderAt(s, t, SWritten)
    case ReleaseWrite(t) => SenderAt(s, t, SBumped)
    case SendLock(t) => SenderAt(s, t, SWantMutex) && s.mutex.None?
    case SendNotify(t) => SenderAt(s, t, SHasMutex)
    case SendUnlock(t) => SenderAt(s, t, SNotified)
    case DropStore => s.dropper == DAlive && forall t :: t in s.senders ==> s.senders[t] == SIdle
    case DropLock => s.dropper == DWantMutex && s.mutex.None?
    case DropNotify => s.dropper == DHasMutex
    case DropUnlock => s.dropper == DNotified
    case StartGet(r) => ReceiverAt(s, r, RIdle)
    case StartWait(r) => ReceiverAt(s, r, RIdle)
    case LoadAlive(r) => r in s.receivers && s.receivers[r].pc.RAlive?
    case LoadId(r) => r in s.receivers && s.receivers[r].pc.RId?
    case AcquireRead(r) => r in s.receivers && s.receivers[r].pc.RRead? && s.writer.None?
    case CloneValue(r) => r in s.receivers && s.receivers[r].pc.RClone?
    case WaitLock(r) => (ReceiverAt(s, r, RWantMutex) || ReceiverAt(s, r, RWake)) && s.mutex.None?
    case Park(r) => ReceiverAt(s, r, RPark)
    case Spurious(r) => ReceiverAt(s, r, RParked)
    case WaitUnlock(r) => ReceiverAt(s, r, RRelease)
    case CloneReceiver(r, copy) => ReceiverAt(s, r, RIdle) && copy !in s.receivers
    case DropReceiver(r) => ReceiverAt(s, r, RIdle)
  }

  // ---- what they do ----

  function SetSender<T>(s: State<T>, t: nat, pc: SenderPc): State<T> {
    s.(senders := s.senders[t := pc])
  }

  function SetReceiver<T>(s: State<T>, r: nat, x: Receiver): State<T> {
    s.(receivers := s.receivers[r := x])
  }

  /** `notify_all`: every parked receiver starts to reacquire the mutex. */
  function NotifyAll<T>(s: State<T>): State<T> {
    s.(receivers := map r | r in s.receivers ::
      if s.receivers[r].pc.RParked? then s.receivers[r].(pc := RWake) else s.receivers[r])
  }

  /** Where a check that finds the sender dropped returns from. */
  function Return(m: Mode): ReceiverPc {
    if m.Get? || m.First? then RIdle else RRelease
  }

  /** The load of the id and the branch on it. */
  function AfterId(x: Receiver, m: Mode, id: nat): Receiver {
    if !m.Woken? && x.last == id then
      x.(pc := match m case Get => RIdle case First => RWantMutex case _ => RPark)
    else x.(last := id, pc := RRead(m))
  }

  function Do<T>(s: State<T>, a: Action<T>): State<T>
    requires Enabled(s, a)
  {
    match a
    case SendCheck(t) => if s.count == 0 then s else SetSender(s, t, SWantWrite)
    case AcquireWrite(t) => SetSender(s, t, SHasWrite).(writer := Some(t))
    case Store(t, v) => SetSender(s, t, SWritten).(history := s.history + [v])
    case Bump(t) => SetSender(s, t, SBumped).(id := s.id + 1)
    case ReleaseWrite(t) => SetSender(s, t, SWantMutex).(writer := None)
    case SendLock(t) => SetSender(s, t, SHasMutex).(mutex := Some(Tx(t)))
    case SendNotify(t) => SetSender(NotifyAll(s), t, SNotified)
    case SendUnlock(t) => SetSender(s, t, SIdle).(mutex := None)
    case DropStore => s.(alive := false, dropper := DWantMutex)
    case DropLock => s.(dropper := DHasMutex, mutex := Some(Dropper))
    case DropNotify => NotifyAll(s).(dropper := DNotified)
    case DropUnlock => s.(dropper := DDone, mutex := None)
    case StartGet(r) => SetReceiver(s, r, s.receivers[r].(pc := RAlive(Get)))
    case StartWait(r) => SetReceiver(s, r, s.receivers[r].(pc := RAlive(First)))
    case LoadAlive(r) =>
      var x := s.receivers[r];
      SetReceiver(s, r, x.(pc := if s.alive then RId(x.pc.m) else Return(x.pc.m)))
    case LoadId(r) => SetReceiver(s, r, AfterId(s.receivers[r], s.receivers[r].pc.m, s.id))
    case AcquireRead(r) => SetReceiver(s, r, s.receivers[r].(pc := RClone(s.receivers[r].pc.m)))
    case CloneValue(r) =>
      SetReceiver(s, r, s.receivers[r].(delivered := |s.history|, pc := Return(s.receivers[r].pc.m)))
    case WaitLock(r) =>
      var m := if s.receivers[r].pc.RWake? then Woken else Second;
      SetReceiver(s, r, s.receivers[r].(pc := RAlive(m))).(mutex := Some(Rx(r)))
    case Park(r) => SetReceiver(s, r, s.receivers[r].(pc := RParked)).(mutex := None)
    case Spurious(r) => SetReceiver(s, r, s.receivers[r].(pc := RWake))
    case WaitUnlock(r) => SetReceiver(s, r, s.receivers[r].(pc := RIdle)).(mutex := None)
    case CloneReceiver(r, copy) => SetReceiver(s, copy, s.receivers[r]).(count := s.count + 1)
    case DropReceiver(r) => s.(receivers := s.receivers - {r}, count := s.count - 1)
  }

  /** A run: every action enabled where it happens. */
  ghost predicate Runs<T>(s: State<T>, acts: seq<Action<T>>, s': State<T>)
    decreases |acts|
  {
    if acts == [] then s == s' else Enabled(s, acts[0]) && Runs(Do(s, acts[0]), acts[1..], s')
  }

  // ---- invariants ----

  predicate Writing(pc: SenderPc) { pc.SHasWrite? || pc.SWritten? || pc.SBumped? }
  predicate SenderHolds(pc: SenderPc) { pc.SHasMutex? || pc.SNotified? }

  predicate ReceiverHolds(pc: ReceiverPc) {
    match pc
    case RAlive(m) => m.Second? || m.Woken?
    case RId(m) => m.Second? || m.Woken?
    case RRead(m) => m.Second? || m.Woken?
    case RClone(m) => m.Second? || m.Woken?
    case RPark => true
    case RRelease => true
    case _ => false
  }

  /** The write lock names exactly the sender inside it, and keeps readers out. */
  ghost predicate WriteLock<T>(s: State<T>) {
    && (forall t :: t in s.senders && Writing(s.senders[t]) <==> s.writer == Some(t))
    && (s.writer.Some? ==> NoReader(s))
  }

  /** The mutex names exactly the thread inside it. */
  ghost predicate MutexLock<T>(s: State<T>) {
    && (forall t :: t in s.senders && SenderHolds(s.senders[t]) <==> s.mutex == Some(Tx(t)))
    && (forall r :: r in s.receivers && ReceiverHolds(s.receivers[r].pc) <==> s.mutex == Some(Rx(r)))
    && (s.dropper.DHasMutex? || s.dropper.DNotified? <==> s.mutex == Some(Dropper))
  }

  /** The stored value's version is the id, but for the moment between store and bump. */
  ghost predicate Versions<T>(s: State<T>) {
    && s.id >= 1
    && |s.history| == s.id + (if s.writer.Some? && SenderAt(s, s.writer.value, SWritten) then 1 else 0)
    && forall r :: r in s.receivers ==>
         var x := s.receivers[r];
         && x.last <= s.id && x.delivered <= |s.history|
         && (x.pc.RRead? || x.pc.RClone? || x.delivered >= x.last)
  }

  /** A sending thread has bumped the id and has not yet notified. */
  ghost predicate BumpPending<T>(s: State<T>) {
    exists t :: t in s.senders && (s.senders[t].SBumped? || s.senders[t].SWantMutex? || s.senders[t].SHasMutex?)
  }

  predicate DropPending<T>(s: State<T>) {
    s.dropper.DWantMutex? || s.dropper.DHasMutex?
  }

  /** Nobody waits for a notification that has already been given. */
  ghost predicate NoLostWakeup<T>(s: State<T>) {
    && (s.alive <==> s.dropper.DAlive?)
    && forall r :: r in s.receivers ==>
         var x := s.receivers[r];
         && (x.pc == RId(Second) || x.pc.RPark? || x.pc.RParked? ==> s.alive || DropPending(s))
         && (x.pc.RPark? || x.pc.RParked? ==> x.last == s.id || BumpPending(s))
  }

  ghost predicate Counted<T>(s: State<T>) {
    s.count == |s.receivers.Keys|
  }

  ghost predicate Inv<T>(s: State<T>) {
    WriteLock(s) && MutexLock(s) && Versions(s) && NoLostWakeup(s) && Counted(s)
  }

  lemma InitInv<T>(init: T, senders: set<nat>)
    ensures Inv(Init(init, senders))
  {
    assert Init(init, senders).receivers.Keys == {0};
  }

  lemma SendersKeepWriteLock<T>(s: State<T>, a: Action<T>)
    requires Inv(s) && Enabled(s, a) && !Checks(a) && !Waits(a)
    ensures WriteLock(Do(s, a))
  {
    hide Versions, NoLostWakeup, Counted, MutexLock;
  }

  lemma CheckersKeepWriteLock<T>(s: State<T>, a: Action<T>)
    requires Inv(s) && Enabled(s, a) && Checks(a)
    ensures WriteLock(Do(s, a))
  {
    hide Versions, NoLostWakeup, Counted, MutexLock, Writing;
  }

  lemma WaitersKeepWriteLock<T>(s: State<T>, a: Action<T>)
    requires Inv(s) && Enabled(s, a) && Waits(a)
    ensures WriteLock(Do(s, a))
  {
    hide Versions, NoLostWakeup, Counted, MutexLock, Writing;
  }

  lemma DropKeepsMutex<T>(s: State<T>, a: Action<T>)
    requires Inv(s) && Enabled(s, a) && Drops(a)
    ensures MutexLock(Do(s, a))
  {
    hide Versions, NoLostWakeup, Counted, WriteLock;
  }

  lemma SendersKeepMutex<T>(s: State<T>, a: Action<T>)
    requires Inv(s) && Enabled(s, a) && !Drops(a) && !Checks(a) && !Waits(a)
    ensures MutexLock(Do(s, a))
  {
    hide Versions, NoLostWakeup, Counted, WriteLock;
  }

  lemma CheckersKeepMutex<T>(s: State<T>, a: Action<T>)
    requires Inv(s) && Enabled(s, a) && Checks(a)
    ensures MutexLock(Do(s, a))
  {
    hide Versions, NoLostWakeup, Counted, WriteLock, SenderHolds;
  }

  lemma CountKeepsMutex<T>(s: State<T>, a: Action<T>)
    requires Inv(s) && Enabled(s, a) && ComesOrGoes(a)
    ensures MutexLock(Do(s, a))
  {
    hide Versions, NoLostWakeup, Counted, WriteLock, SenderHolds;
  }

  lemma WaitersKeepMutex<T>(s: State<T>, a: Action<T>)
    requires Inv(s) && Enabled(s, a) && Waits(a) && !ComesOrGoes(a)
    ensures MutexLock(Do(s, a))
  {
    hide Versions, NoLostWakeup, Counted, WriteLock, SenderHolds;
  }

  lemma SendersKeepVersions<T>(s: State<T>, a: Action<T>)
    requires Inv(s) && Enabled(s, a) && !Checks(a) && !Waits(a)
    ensures Versions(Do(s, a))
  {
    hide NoLostWakeup, Counted, MutexLock;
  }

  lemma CheckersKeepVersions<T>(s: State<T>, a: Action<T>)
    requires Inv(s) && Enabled(s, a) && Checks(a)
    ensures Versions(Do(s, a))
  {
    hide NoLostWakeup, Counted, MutexLock, Writing;
  }

  lemma WaitersKeepVersions<T>(s: State<T>, a: Action<T>)
    requires Inv(s) && Enabled(s, a) && Waits(a)
    ensures Versions(Do(s, a))
  {
    hide NoLostWakeup, Counted, MutexLock, Writing;
  }

  // A pending bump stays pending until its own thread notifies.
  lemma BumpStaysPending<T>(s: State<T>, a: Action<T>)
    requires Enabled(s, a) && !a.SendNotify?
    ensures BumpPending(s) || a.Bump? ==> BumpPending(Do(s, a))
  {
    if BumpPending(s) {
      var t :| t in s.senders && (s.senders[t].SBumped? || s.senders[t].SWantMutex? || s.senders[t].SHasMutex?);
      assert t in Do(s, a).senders;
    }
    if a.Bump? {
      assert a.t in Do(s, a).senders;
    }
  }

  lemma SendersKeepWakeups<T>(s: State<T>, a: Action<T>)
    requires Inv(s) && Enabled(s, a) && !Checks(a) && !Waits(a)
    ensures NoLostWakeup(Do(s, a))
  {
    hide Versions, Counted, WriteLock, BumpPending;
    if !a.SendNotify? {
      BumpStaysPending(s, a);
    }
  }

  lemma CheckersKeepWakeups<T>(s: State<T>, a: Action<T>)
    requires Inv(s) && Enabled(s, a) && Checks(a)
    ensures NoLostWakeup(Do(s, a))
  {
    hide Versions, Counted, WriteLock, BumpPending;
    BumpStaysPending(s, a);
  }

  lemma CountKeepsWakeups<T>(s: State<T>, a: Action<T>)
    requires Inv(s) && Enabled(s, a) && ComesOrGoes(a)
    ensures NoLostWakeup(Do(s, a))
  {
    hide Versions, Counted, WriteLock, MutexLock, BumpPending;
    BumpStaysPending(s, a);
  }

  lemma WaitersKeepWakeups<T>(s: State<T>, a: Action<T>)
    requires Inv(s) && Enabled(s, a) && Waits(a) && !ComesOrGoes(a)
    ensures NoLostWakeup(Do(s, a))
  {
    hide Versions, Counted, WriteLock, MutexLock, BumpPending;
    BumpStaysPending(s, a);
  }

  lemma StepKeepsCount<T>(s: State<T>, a: Action<T>)
    requires Counted(s) && Enabled(s, a)
    ensures Counted(Do(s, a))
  {
    KeysAfter(s, a);
    hide Do, Enabled;
  }

  lemma KeysAfter<T>(s: State<T>, a: Action<T>)
    requires Enabled(s, a)
    ensures var s' := Do(s, a);
      if a.CloneReceiver? then
        a.copy !in s.receivers && s'.receivers.Keys == s.receivers.Keys + {a.copy} && s'.count == s.count + 1
      else if a.DropReceiver? then
        a.r in s.receivers && s'.receivers.Keys == s.receivers.Keys - {a.r} && s'.count == s.count - 1
      else s'.receivers.Keys == s.receivers.Keys && s'.count == s.count
  {
  }

  lemma StepKeepsInv<T>(s: State<T>, a: Action<T>)
    requires Inv(s) && Enabled(s, a)
    ensures Inv(Do(s, a))
  {
    hide Versions, NoLostWakeup, Counted, WriteLock, MutexLock, Enabled, Do;
    if Checks(a) {
      CheckersKeepWriteLock(s, a);
      CheckersKeepMutex(s, a);
      CheckersKeepVersions(s, a);
      CheckersKeepWakeups(s, a);
    } else if Waits(a) {
      WaitersKeepWriteLock(s, a);
      if ComesOrGoes(a) { CountKeepsMutex(s, a); } else { WaitersKeepMutex(s, a); }
      WaitersKeepVersions(s, a);
      if ComesOrGoes(a) { CountKeepsWakeups(s, a); } else { WaitersKeepWakeups(s, a); }
    } else {
      SendersKeepWriteLock(s, a);
      if Drops(a) { DropKeepsMutex(s, a); } else { SendersKeepMutex(s, a); }
      SendersKeepVersions(s, a);
      SendersKeepWakeups(s, a);
    }
    StepKeepsCount(s, a);
  }

  /** Every reachable state satisfies the invariants. */
  lemma {:induction false} RunKeepsInv<T>(s: State<T>, acts: seq<Action<T>>, s': State<T>)
    requires Inv(s) && Runs(s, acts, s')
    ensures Inv(s')
    decreases |acts|
  {
    hide Inv, Enabled, Do;
    if acts == [] {
    } else {
      StepKeepsInv(s, acts[0]);
      RunKeepsInv(Do(s, acts[0]), acts[1..], s');
    }
  }

  // ---- what the invariants mean ----

  /** No lost wake-up, in every reachable interleaving: while a receiver is parked although
      the id has moved past what it saw, a sender stands between its bump and its
      notification; while one is parked although the sender is gone, the drop stands there. */
  lemma ParkedReceiversWillBeNotified<T>(init: T, senders: set<nat>, acts: seq<Action<T>>, s: State<T>, r: nat)
    requires Runs(Init(init, senders), acts, s) && ReceiverAt(s, r, RParked)
    ensures s.receivers[r].last != s.id ==> BumpPending(s)
    ensures !s.alive ==> DropPending(s)
  {
    hide Init, BumpPending;
    InitInv(init, senders);
    RunKeepsInv(Init(init, senders), acts, s);
  }

  /** Nobody sleeps on news: in every reachable state with no send or drop under way, the
      sender is alive and every parked receiver has been given the current value. */
  lemma QuietSleepersAreCurrent<T>(init: T, senders: set<nat>, acts: seq<Action<T>>, s: State<T>, r: nat)
    requires Runs(Init(init, senders), acts, s) && ReceiverAt(s, r, RParked)
    requires !DropPending(s) && forall t :: t in s.senders ==> s.senders[t].SIdle?
    ensures s.alive && s.receivers[r].last == s.id && s.receivers[r].delivered == |s.history|
  {
    hide Init, MutexLock, Counted;
    InitInv(init, senders);
    RunKeepsInv(Init(init, senders), acts, s);
    assert !BumpPending(s);
    if s.writer.Some? {
      assert false;
    }
  }

  /** Freshness, in every reachable interleaving: a receiver returns a value at least as new
      as the id it has recorded and as every value it has returned before; between calls, a
      recorded id equal to the current one means that the current value was delivered. */
  lemma DeliveriesAreFresh<T>(init: T, senders: set<nat>, acts: seq<Action<T>>, s: State<T>, r: nat)
    requires Runs(Init(init, senders), acts, s) && r in s.receivers
    ensures |s.history| >= 1 && (s.writer.None? ==> |s.history| == s.id)
    ensures var x := s.receivers[r];
      && (x.pc.RClone? ==> Enabled(s, CloneValue(r)) && Do(s, CloneValue(r)).receivers[r].delivered == |s.history|)
      && (x.pc.RClone? ==> x.last <= |s.history| && x.delivered <= |s.history|)
      && (x.pc.RIdle? && x.last == s.id && s.writer.None? ==> x.delivered == |s.history|)
  {
    hide Init, NoLostWakeup, MutexLock, Counted, WriteLock;
    InitInv(init, senders);
    RunKeepsInv(Init(init, senders), acts, s);
  }

  lemma StepKeepsProgress<T>(s: State<T>, a: Action<T>, r: nat)
    requires Inv(s) && Enabled(s, a) && r in s.receivers && a != DropReceiver(r)
    ensures r in Do(s, a).receivers
    ensures Do(s, a).receivers[r].last >= s.receivers[r].last
    ensures Do(s, a).receivers[r].delivered >= s.receivers[r].delivered
  {
    hide NoLostWakeup, MutexLock, Counted, WriteLock;
  }

  /** Versions never go backwards: over any run in which a receiver is not dropped, neither
      its recorded id nor the newest value it has returned decreases. */
  lemma {:induction false} VersionsNeverGoBack<T>(s: State<T>, acts: seq<Action<T>>, s': State<T>, r: nat)
    requires Inv(s) && Runs(s, acts, s') && r in s.receivers && DropReceiver(r) !in acts
    ensures r in s'.receivers
    ensures s'.receivers[r].last >= s.receivers[r].last && s'.receivers[r].delivered >= s.receivers[r].delivered
    decreases |acts|
  {
    hide Inv, Enabled, Do;
    if acts == [] {
    } else {
      StepKeepsInv(s, acts[0]);
      StepKeepsProgress(s, acts[0], r);
      VersionsNeverGoBack(Do(s, acts[0]), acts[1..], s', r);
    }
  }

  // ---- deadlock freedom ----

  /** Some thread is inside an operation and not waiting on the condition variable. */
  ghost predicate Busy<T>(s: State<T>) {
    || (exists t :: t in s.senders && !s.senders[t].SIdle?)
    || s.dropper.DWantMutex? || s.dropper.DHasMutex? || s.dropper.DNotified?
    || (exists r :: r in s.receivers && !s.receivers[r].pc.RIdle? && !s.receivers[r].pc.RParked?)
  }

  /** The action continues an operation already begun. */
  predicate Continues<T>(a: Action<T>) {
    !a.SendCheck? && !a.DropStore? && !a.StartGet? && !a.StartWait? && !a.Spurious? && !ComesOrGoes(a)
  }

  lemma WriterContinues<T>(s: State<T>, t: nat) returns (a: Action<T>)
    requires Inv(s) && t in s.senders && Writing(s.senders[t])
    ensures Enabled(s, a) && Continues(a)
  {
    match s.senders[t]
    case SHasWrite => a := Store(t, s.history[0]);
    case SWritten => a := Bump(t);
    case SBumped => a := ReleaseWrite(t);
  }

  lemma HolderContinues<T>(s: State<T>) returns (a: Action<T>)
    requires Inv(s) && s.mutex.Some? && s.writer.None?
    ensures Enabled(s, a) && Continues(a)
  {
    match s.mutex.value
    case Tx(t) => a := if s.senders[t].SHasMutex? then SendNotify(t) else SendUnlock(t);
    case Dropper => a := if s.dropper.DHasMutex? then DropNotify else DropUnlock;
    case Rx(r) =>
      assert ReceiverHolds(s.receivers[r].pc);
      a := match s.receivers[r].pc
        case RAlive(_) => LoadAlive(r)
        case RId(_) => LoadId(r)
        case RRead(_) => AcquireRead(r)
        case RClone(_) => CloneValue(r)
        case RPark => Park(r)
        case _ => WaitUnlock(r);
  }

  /** In every state the invariants allow, if any thread is inside an operation and not
      parked, some such thread can act: the two locks never block each other. */
  lemma NoDeadlock<T>(s: State<T>) returns (a: Action<T>)
    requires Inv(s) && Busy(s)
    ensures Enabled(s, a) && Continues(a)
  {
    if s.writer.Some? {
      a := WriterContinues(s, s.writer.value);
    } else if !NoReader(s) {
      var r :| r in s.receivers && s.receivers[r].pc.RClone?;
      a := CloneValue(r);
    } else if s.mutex.Some? {
      a := HolderContinues(s);
    } else if t :| t in s.senders && !s.senders[t].SIdle? {
      a := if s.senders[t].SWantWrite? then AcquireWrite(t) else SendLock(t);
    } else if s.dropper.DWantMutex? {
      a := DropLock;
    } else {
      var r :| r in s.receivers && !s.receivers[r].pc.RIdle? && !s.receivers[r].pc.RParked?;
      a := match s.receivers[r].pc
        case RAlive(_) => LoadAlive(r)
        case RId(_) => LoadId(r)
        case RRead(_) => AcquireRead(r)
        case _ => WaitLock(r);
    }
  }
}
