/** The ends of the watch channel: what a closed channel still delivers, when a send goes
    ahead, and when a check goes on to read. */
module WatchEnds {
  import opened Wrappers
  import opened Watch

  /** The receiver has found the sender alive and has not yet returned or waited. */
  predicate PastAlive(pc: ReceiverPc) {
    pc.RId? || pc.RRead? || pc.RClone? || pc.RPark?
  }

  /** The sender is gone and the receiver is not in the middle of a check that found it alive. */
  predicate Closed<T>(s: State<T>, r: nat) {
    !s.alive && r in s.receivers && !PastAlive(s.receivers[r].pc)
  }

  /** An action leaves what the receiver of a closed channel has seen. */
  ghost predicate ClosedKept<T>(s: State<T>, a: Action<T>, r: nat)
    requires Enabled(s, a) && Closed(s, r)
  {
    var s' := Do(s, a);
    && a != CloneValue(r) && Closed(s', r)
    && s'.receivers[r].last == s.receivers[r].last && s'.receivers[r].delivered == s.receivers[r].delivered
  }

  lemma ClosedCheck<T>(s: State<T>, a: Action<T>, r: nat)
    requires Enabled(s, a) && Closed(s, r) && Checks(a)
    ensures ClosedKept(s, a, r)
  {
  }

  lemma ClosedWait<T>(s: State<T>, a: Action<T>, r: nat)
    requires Enabled(s, a) && Closed(s, r) && Waits(a) && a != DropReceiver(r)
    ensures ClosedKept(s, a, r)
  {
  }

  lemma ClosedSend<T>(s: State<T>, a: Action<T>, r: nat)
    requires Enabled(s, a) && Closed(s, r) && !Checks(a) && !Waits(a)
    ensures ClosedKept(s, a, r)
  {
  }

  lemma ClosedStep<T>(s: State<T>, a: Action<T>, r: nat)
    requires Enabled(s, a) && Closed(s, r) && a != DropReceiver(r)
    ensures ClosedKept(s, a, r)
  {
    hide Enabled, Do, Closed, ClosedKept, Checks, Waits;
    if Checks(a) {
      ClosedCheck(s, a, r);
    } else if Waits(a) {
      ClosedWait(s, a, r);
    } else {
      ClosedSend(s, a, r);
    }
  }

  /** A closed channel delivers nothing more: once the sender is gone, a receiver that is not in
      the middle of a check reads no value in any run, whatever it calls. */
  lemma {:induction false} ClosedDeliversNothing<T>(s: State<T>, acts: seq<Action<T>>, s': State<T>, r: nat)
    requires Runs(s, acts, s') && Closed(s, r) && DropReceiver(r) !in acts
    ensures CloneValue(r) !in acts && Closed(s', r)
    ensures s'.receivers[r].last == s.receivers[r].last && s'.receivers[r].delivered == s.receivers[r].delivered
    decreases |acts|
  {
    hide Enabled, Do, Closed;
    if acts == [] {
    } else {
      ClosedStep(s, acts[0], r);
      ClosedDeliversNothing(Do(s, acts[0]), acts[1..], s', r);
    }
  }

  /** In every reachable state, a send goes ahead exactly when some receiver is left. */
  lemma SendProceedsExactly<T>(init: T, senders: set<nat>, acts: seq<Action<T>>, s: State<T>, t: nat)
    requires Runs(Init(init, senders), acts, s) && Enabled(s, SendCheck(t))
    ensures Do(s, SendCheck(t)) == if s.receivers == map[] then s else s.(senders := s.senders[t := SWantWrite])
  {
    hide Init, WriteLock, MutexLock, Versions, NoLostWakeup;
    InitInv(init, senders);
    RunKeepsInv(Init(init, senders), acts, s);
    assert s.receivers == map[] <==> s.receivers.Keys == {};
  }

  /** In every reachable state, the load of the id goes on to read exactly when the receiver is
      behind, or was woken; it then records the current id. Otherwise a poll returns, a wait goes
      to the mutex, and then to the condition variable. */
  lemma LoadIdExactly<T>(init: T, senders: set<nat>, acts: seq<Action<T>>, s: State<T>, r: nat)
    requires Runs(Init(init, senders), acts, s) && Enabled(s, LoadId(r))
    ensures var x, x' := s.receivers[r], Do(s, LoadId(r)).receivers[r];
      && (x'.pc.RRead? <==> x.last < s.id || x.pc.m.Woken?)
      && (x'.pc.RRead? ==> x'.pc.m == x.pc.m)
      && x'.last == s.id && x'.delivered == x.delivered
    ensures var x, x' := s.receivers[r], Do(s, LoadId(r)).receivers[r];
      && (x'.pc.RIdle? <==> x.pc.m.Get? && x.last == s.id)
      && (x'.pc.RWantMutex? <==> x.pc.m.First? && x.last == s.id)
      && (x'.pc.RPark? <==> x.pc.m.Second? && x.last == s.id)
  {
    hide Init, WriteLock, MutexLock, NoLostWakeup, Counted;
    InitInv(init, senders);
    RunKeepsInv(Init(init, senders), acts, s);
  }

  /** A clone has seen what the original has seen: over any run without actions of either, the
      same check finds the same for both. */
  lemma CloneSeesTheSame<T>(s: State<T>, r: nat, copy: nat, acts: seq<Action<T>>, s': State<T>)
    requires Enabled(s, CloneReceiver(r, copy)) && Runs(Do(s, CloneReceiver(r, copy)), acts, s')
    requires forall a :: a in acts ==> !Moves(a, r) && !Moves(a, copy)
    ensures r in s'.receivers && copy in s'.receivers && s'.receivers[copy] == s'.receivers[r] == s.receivers[r]
  {
    hide Do, Enabled, Runs;
    CloneCopies(s, r, copy);
    Untouched(Do(s, CloneReceiver(r, copy)), acts, s', r);
    Untouched(Do(s, CloneReceiver(r, copy)), acts, s', copy);
  }

  /** The action is one of the receiver's own, or makes or drops it. */
  predicate Moves<T>(a: Action<T>, r: nat) {
    match a
    case StartGet(q) => q == r
    case StartWait(q) => q == r
    case LoadAlive(q) => q == r
    case LoadId(q) => q == r
    case AcquireRead(q) => q == r
    case CloneValue(q) => q == r
    case WaitLock(q) => q == r
    case Park(q) => q == r
    case Spurious(q) => q == r
    case WaitUnlock(q) => q == r
    case CloneReceiver(q, copy) => q == r || copy == r
    case DropReceiver(q) => q == r
    case _ => false
  }

  lemma CloneCopies<T>(s: State<T>, r: nat, copy: nat)
    requires Enabled(s, CloneReceiver(r, copy))
    ensures var s' := Do(s, CloneReceiver(r, copy));
      r != copy && s'.receivers == s.receivers[copy := s.receivers[r]] && r in s.receivers && s.receivers[r].pc.RIdle?
  {
  }

  lemma UntouchedStep<T>(s: State<T>, a: Action<T>, r: nat)
    requires Enabled(s, a) && r in s.receivers && s.receivers[r].pc.RIdle? && !Moves(a, r)
    ensures r in Do(s, a).receivers && Do(s, a).receivers[r] == s.receivers[r]
  {
  }

  lemma {:induction false} Untouched<T>(s: State<T>, acts: seq<Action<T>>, s': State<T>, r: nat)
    requires Runs(s, acts, s') && r in s.receivers && s.receivers[r].pc.RIdle?
    requires forall a :: a in acts ==> !Moves(a, r)
    ensures r in s'.receivers && s'.receivers[r] == s.receivers[r]
    decreases |acts|
  {
    hide Enabled, Do, Moves;
    if acts == [] {
    } else {
      UntouchedStep(s, acts[0], r);
      Untouched(Do(s, acts[0]), acts[1..], s', r);
    }
  }
}
