/** The registry under several threads: an installation reads the assignment, then passes the
    banlist and gets its index, then ends its load, and events of other threads may happen
    between these. */
module Interleaving {
  import opened Wrappers
  import opened Registry

  /** Where the one installation under way stands; installations exclude each other. */
  datatype Stage =
    | Idle
    | Read(dev: nat, model: Model)      // has read the device's assignment
    | Loading(dev: nat, model: Model)   // has passed the banlist and got its index

  datatype Machine = Machine(s: State, stage: Stage)

  datatype Move = Start(dev: nat) | Check(env: Env) | Conclude(daa: nat, env: Env) | Interrupt(event: Event)

  predicate Enabled(c: Machine, a: Move) {
    match a
    case Start(_) => c.stage.Idle?
    case Check(_) => c.stage.Read?
    case Conclude(_, _) => c.stage.Loading?
    case Interrupt(e) => !e.EnsureInstalled?
  }

  /** The guards that are tested before the wait for the installation lock may have gone stale
      by `Start`, which tests none but the one repeated under the lock. */
  function Act(c: Machine, a: Move): Machine
    requires Enabled(c, a)
  {
    match a
    case Start(dev) =>
      if dev in c.s.miners || MiningTier(c.s.tiers, dev).None? then c
      else c.(stage := Read(dev, MiningTier(c.s.tiers, dev).value))
    case Check(env) =>
      var (s, m) := PrepareFor(c.s, c.stage.dev, c.stage.model, env);
      Machine(s, if m.Some? then Loading(c.stage.dev, m.value) else Idle)
    case Conclude(daa, env) => Machine(Finish(c.s, c.stage.dev, c.stage.model, daa, env), Idle)
    case Interrupt(e) => c.(s := Step(c.s, e))
  }

  ghost predicate Runs(c: Machine, acts: seq<Move>, c': Machine)
    decreases |acts|
  {
    if acts == [] then c == c' else Enabled(c, acts[0]) && Runs(Act(c, acts[0]), acts[1..], c')
  }

  /** The (device, model) that a move runs out of memory on. */
  function Fails(c: Machine, a: Move): Option<(nat, Model)>
    requires Enabled(c, a)
  {
    match a
    case Conclude(_, env) => if env.load.OutOfMemory? then Some((c.stage.dev, c.stage.model)) else None
    case Interrupt(e) => OomOf(c.s, e)
    case _ => None
  }

  function Bit(b: bool): nat {
    if b then 1 else 0
  }

  predicate FailsOn(c: Machine, a: Move, dev: nat)
    requires Enabled(c, a)
  {
    Fails(c, a).Some? && Fails(c, a).value.0 == dev
  }

  /** How many moves of a run are out-of-memory failures of `dev`. */
  ghost function Failures(c: Machine, acts: seq<Move>, c': Machine, dev: nat): nat
    requires Runs(c, acts, c')
    decreases |acts|
  {
    if acts == [] then 0 else Bit(FailsOn(c, acts[0], dev)) + Failures(Act(c, acts[0]), acts[1..], c', dev)
  }

  lemma {:induction false} RunsConcat(c: Machine, a: seq<Move>, c1: Machine, b: seq<Move>, c': Machine, dev: nat)
    requires Runs(c, a, c1) && Runs(c1, b, c')
    ensures Runs(c, a + b, c')
    ensures Failures(c, a + b, c', dev) == Failures(c, a, c1, dev) + Failures(c1, b, c', dev)
    decreases |a|
  {
    hide Enabled, Act, FailsOn;
    if a == [] {
      assert a + b == b;
    } else {
      assert (a + b)[1..] == a[1..] + b && (a + b)[0] == a[0];
      RunsConcat(Act(c, a[0]), a[1..], c1, b, c', dev);
    }
  }

  lemma OneMove(c: Machine, a: Move, dev: nat)
    requires Enabled(c, a)
    ensures Runs(c, [a], Act(c, a)) && Failures(c, [a], Act(c, a), dev) == Bit(FailsOn(c, a, dev))
  {
    hide Enabled, Act, FailsOn;
    assert [a][1..] == [];
    assert Runs(Act(c, a), [], Act(c, a));
    assert Failures(Act(c, a), [], Act(c, a), dev) == 0;
  }

  // ---- uninterrupted installations ----

  /** The moves of one event of the registry when no other thread interferes. */
  function Uninterrupted(s: State, e: Event): seq<Move> {
    match e
    case EnsureInstalled(dev, daa, env) =>
      if Blocked(s, dev) || MiningTier(s.tiers, dev).None? then []
      else [Start(dev), Check(env)] + if Prepare(s, dev, env).1.Some? then [Conclude(daa, env)] else []
    case _ => [Interrupt(e)]
  }

  lemma LoadIsMoves(s: State, dev: nat, daa: nat, env: Env, d: nat)
    requires !Blocked(s, dev) && Prepare(s, dev, env).1.Some?
    ensures var acts, c' := [Start(dev), Check(env)] + [Conclude(daa, env)], Machine(Ensure(s, dev, daa, env), Idle);
      && Runs(Machine(s, Idle), acts, c')
      && Failures(Machine(s, Idle), acts, c', d) == Bit(env.load.OutOfMemory? && dev == d)
  {
    hide PrepareFor, Finish, Runs, Failures;
    var c := Machine(s, Idle);
    CheckIsMoves(s, dev, env, d);
    var (s1, m) := Prepare(s, dev, env);
    var c1 := Machine(s1, Loading(dev, m.value));
    OneMove(c1, Conclude(daa, env), d);
    RunsConcat(c, [Start(dev), Check(env)], c1, [Conclude(daa, env)], Act(c1, Conclude(daa, env)), d);
  }

  lemma CheckIsMoves(s: State, dev: nat, env: Env, d: nat)
    requires !Blocked(s, dev) && MiningTier(s.tiers, dev).Some?
    ensures var (s1, m) := Prepare(s, dev, env);
      var c' := Machine(s1, if m.Some? then Loading(dev, m.value) else Idle);
      && Runs(Machine(s, Idle), [Start(dev), Check(env)], c')
      && Failures(Machine(s, Idle), [Start(dev), Check(env)], c', d) == 0
      && (m.Some? ==> MiningTier(s.tiers, dev) == m)
  {
    hide IndexFor, Runs, Failures;
    var c := Machine(s, Idle);
    OneMove(c, Start(dev), d);
    var c1 := Act(c, Start(dev));
    OneMove(c1, Check(env), d);
    RunsConcat(c, [Start(dev)], c1, [Check(env)], Act(c1, Check(env)), d);
    assert [Start(dev)] + [Check(env)] == [Start(dev), Check(env)];
  }

  lemma StepIsMoves(s: State, e: Event, d: nat)
    ensures Runs(Machine(s, Idle), Uninterrupted(s, e), Machine(Step(s, e), Idle))
    ensures Failures(Machine(s, Idle), Uninterrupted(s, e), Machine(Step(s, e), Idle), d)
      == Bit(OomOf(s, e).Some? && OomOf(s, e).value.0 == d)
  {
    hide PrepareFor, Finish, MiningTier;
    match e
    case EnsureInstalled(dev, daa, env) =>
      if Blocked(s, dev) || MiningTier(s.tiers, dev).None? {
      } else if Prepare(s, dev, env).1.Some? {
        LoadIsMoves(s, dev, daa, env, d);
      } else {
        CheckIsMoves(s, dev, env, d);
        assert [Start(dev), Check(env)] + [] == [Start(dev), Check(env)];
      }
    case _ =>
      OneMove(Machine(s, Idle), Interrupt(e), d);
  }

  /** The atomic registry is the uninterrupted part of this one: every one of its runs is a run
      here, with the same out-of-memory failures. */
  lemma {:induction false} AtomicRunIsRun(s: State, es: seq<Event>, dev: nat) returns (acts: seq<Move>)
    ensures Runs(Machine(s, Idle), acts, Machine(Run(s, es), Idle))
    ensures Failures(Machine(s, Idle), acts, Machine(Run(s, es), Idle), dev) == OomCount(s, es, dev)
    decreases |es|
  {
    hide Step, Act, Enabled, FailsOn, OomOf, Uninterrupted;
    if es == [] {
      acts := [];
    } else {
      var s1 := Step(s, es[0]);
      var rest := AtomicRunIsRun(s1, es[1..], dev);
      StepIsMoves(s, es[0], dev);
      var end := Machine(Run(s1, es[1..]), Idle);
      RunsConcat(Machine(s, Idle), Uninterrupted(s, es[0]), Machine(s1, Idle), rest, end, dev);
      acts := Uninterrupted(s, es[0]) + rest;
    }
  }
}
