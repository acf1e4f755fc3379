/** Out-of-memory failures when installations are interrupted: how many there can be, when a
    banlisted model is loaded, and when a late failure does not lower the tier. */
module InterleavedOom {
  import opened Wrappers
  import opened Registry
  import opened Interleaving

  // ---- how many failures ----

  /** The model of a tier from the five-tier activation on. */
  function TierModel(i: nat): Model
    requires i < 5
  {
    if i == 0 then Qwen1B else if i == 1 then Gemma4B else if i == 2 then Dolphin8B else if i == 3 then Qwen32B
    else Llama70BQ2
  }

  lemma TierModelIndex(m: Model, daa: nat)
    requires daa >= H2_ACTIVATION
    ensures TierIndex(m, daa).Some? ==> TierIndex(m, daa).value < 5 && m == TierModel(TierIndex(m, daa).value)
    ensures TierIndex(m, daa) == TierIndex(m, H2_ACTIVATION)
    ensures forall i :: 0 <= i < 5 ==> TierIndex(TierModel(i), daa) == Some(i)
  {
  }

  /** How many of the `n` smallest tiers are not banlisted on the device. */
  function Unbanned(banlist: set<(nat, Model)>, dev: nat, n: nat): (u: nat)
    requires n <= 5
    ensures u <= n
  {
    if n == 0 then 0 else Bit((dev, TierModel(n - 1)) !in banlist) + Unbanned(banlist, dev, n - 1)
  }

  lemma {:induction false} UnbannedAfter(banlist: set<(nat, Model)>, dev: nat, n: nat, d: nat, m: Model)
    requires n <= 5 && TierIndex(m, H2_ACTIVATION).Some?
    ensures Unbanned(banlist + {(d, m)}, dev, n)
      + Bit(d == dev && TierIndex(m, H2_ACTIVATION).value < n && (d, m) !in banlist) == Unbanned(banlist, dev, n)
  {
    if n == 0 {
    } else {
      UnbannedAfter(banlist, dev, n - 1, d, m);
      TierModelIndex(m, H2_ACTIVATION);
      assert TierIndex(TierModel(n - 1), H2_ACTIVATION) == Some(n - 1);
    }
  }

  lemma {:induction false} UnbannedElsewhere(banlist: set<(nat, Model)>, dev: nat, n: nat, d: nat, m: Model)
    requires n <= 5 && d != dev
    ensures Unbanned(banlist + {(d, m)}, dev, n) == Unbanned(banlist, dev, n)
  {
    if n > 0 {
      UnbannedElsewhere(banlist, dev, n - 1, d, m);
    }
  }

  predicate Below(m: Model, n: nat) {
    TierIndex(m, H2_ACTIVATION).Some? && TierIndex(m, H2_ACTIVATION).value < n
  }

  /** The device is assigned, and is being given, only tiers below `n`. */
  predicate Bounded(c: Machine, dev: nat, n: nat) {
    && dev in c.s.tiers && Below(c.s.tiers[dev], n)
    && (!c.stage.Idle? && c.stage.dev == dev ==> Below(c.stage.model, n))
  }

  /** Failures the device has left: two for every tier not banlisted, and one for a load of a
      model that has been banlisted since it began. */
  function Potential(c: Machine, dev: nat, n: nat): nat
    requires n <= 5
  {
    2 * Unbanned(c.s.banlist, dev, n)
    + Bit(c.stage.Loading? && c.stage.dev == dev && (dev, c.stage.model) in c.s.banlist)
  }

  /** Loads of `dev` end at or after the five-tier activation. */
  predicate EndsAfterH2(c: Machine, a: Move, dev: nat) {
    a.Conclude? && !c.stage.Idle? && c.stage.dev == dev ==> a.daa >= H2_ACTIVATION
  }

  /** What a move does to assignments and banlist. */
  lemma MoveTiers(c: Machine, a: Move)
    requires Enabled(c, a)
    ensures Fails(c, a).None? ==> Act(c, a).s.tiers == c.s.tiers && Act(c, a).s.banlist == c.s.banlist
    ensures Fails(c, a).Some? ==> Act(c, a).s.banlist == c.s.banlist + {Fails(c, a).value}
    ensures Fails(c, a).Some? && a.Interrupt? ==>
      MiningTier(c.s.tiers, Fails(c, a).value.0) == Some(Fails(c, a).value.1) && Fails(c, a).value !in c.s.banlist
    ensures Fails(c, a).Some? ==> forall d :: d != Fails(c, a).value.0 && d in c.s.tiers ==>
      d in Act(c, a).s.tiers && Act(c, a).s.tiers[d] == c.s.tiers[d]
  {
    hide TierIndex, Pick, MiningTier, Sibling, IndexFor;
    match a
    case Interrupt(e) => StepTiers(c.s, e);
    case _ =>
  }

  // A failing device keeps its assignment or gets a smaller tier than the failed one.
  lemma FailedAssignment(c: Machine, a: Move, dev: nat, n: nat)
    requires Enabled(c, a) && FailsOn(c, a, dev) && Bounded(c, dev, n) && EndsAfterH2(c, a, dev)
    ensures Below(Fails(c, a).value.1, n)
    ensures dev in Act(c, a).s.tiers && Below(Act(c, a).s.tiers[dev], n)
  {
    hide Pick, MiningTier, Sibling, FirstKey;
    var m := Fails(c, a).value.1;
    match a
    case Interrupt(e) => InterruptAssignment(c.s, e, dev);
    case Conclude(daa, env) =>
      TierModelIndex(m, daa);
      hide TierIndex;
      if Act(c, a).s.tiers[dev] != c.s.tiers[dev] {
        var r := Pick(Ban(c.s, dev, m).banlist, dev, TierIndex(m, daa).value, daa, env.served);
        TierModelIndex(r.value, daa);
      }
  }

  lemma InterruptAssignment(s: State, e: Event, dev: nat)
    requires !e.EnsureInstalled? && OomOf(s, e).Some? && OomOf(s, e).value.0 == dev
    ensures dev in s.tiers && OomOf(s, e).value.1 == s.tiers[dev] && dev in Step(s, e).tiers
    ensures var before := TierIndex(s.tiers[dev], H2_ACTIVATION);
      var after := TierIndex(Step(s, e).tiers[dev], H2_ACTIVATION);
      before.Some? ==> after.Some? && after.value <= before.value
  {
    hide TierIndex, Sibling, FirstKey;
  }

  lemma MoveStage(c: Machine, a: Move)
    requires Enabled(c, a)
    ensures var c' := Act(c, a);
      && (c'.stage.Read? && c'.stage != c.stage ==> MiningTier(c.s.tiers, c'.stage.dev) == Some(c'.stage.model))
      && (c'.stage.Loading? && c'.stage != c.stage ==>
            c.stage == Read(c'.stage.dev, c'.stage.model) && (c'.stage.dev, c'.stage.model) !in c'.s.banlist)
      && (a.Conclude? ==> c'.stage.Idle?)
  {
    hide TierIndex, Pick, Sibling, FirstKey, MiningTier, Step, Finish;
  }

  lemma MoveKeepsBounded(c: Machine, a: Move, dev: nat, n: nat)
    requires Enabled(c, a) && Bounded(c, dev, n) && EndsAfterH2(c, a, dev)
    ensures Bounded(Act(c, a), dev, n)
  {
    hide Act, Fails, TierIndex;
    MoveTiers(c, a);
    MoveStage(c, a);
    if FailsOn(c, a, dev) {
      FailedAssignment(c, a, dev, n);
    }
  }

  lemma MovePays(c: Machine, a: Move, dev: nat, n: nat)
    requires Enabled(c, a) && Bounded(c, dev, n) && EndsAfterH2(c, a, dev) && n <= 5
    ensures Potential(Act(c, a), dev, n) + Bit(FailsOn(c, a, dev)) <= Potential(c, dev, n)
  {
    MoveTiers(c, a);
    MoveStage(c, a);
    if Fails(c, a).Some? {
      FailIsPending(c, a);
    }
    if FailsOn(c, a, dev) {
      FailedAssignment(c, a, dev, n);
      UnbannedAfter(c.s.banlist, dev, n, dev, Fails(c, a).value.1);
    } else if Fails(c, a).Some? {
      UnbannedElsewhere(c.s.banlist, dev, n, Fails(c, a).value.0, Fails(c, a).value.1);
    }
    hide Act, Fails, TierIndex, Unbanned, MiningTier, Enabled;
  }

  lemma FailIsPending(c: Machine, a: Move)
    requires Enabled(c, a) && Fails(c, a).Some?
    ensures a.Conclude? || a.Interrupt?
    ensures a.Conclude? ==> c.stage == Loading(Fails(c, a).value.0, Fails(c, a).value.1)
    ensures a.Interrupt? ==> Act(c, a).stage == c.stage
  {
    hide OomOf, Step, Finish;
  }

  /** Loads of `dev` in the run end at or after the five-tier activation. */
  ghost predicate AllAfterH2(c: Machine, acts: seq<Move>, c': Machine, dev: nat)
    requires Runs(c, acts, c')
    decreases |acts|
  {
    acts != [] ==> EndsAfterH2(c, acts[0], dev) && AllAfterH2(Act(c, acts[0]), acts[1..], c', dev)
  }

  lemma {:induction false} RunPays(c: Machine, acts: seq<Move>, c': Machine, dev: nat, n: nat)
    requires Runs(c, acts, c') && AllAfterH2(c, acts, c', dev) && Bounded(c, dev, n) && n <= 5
    ensures Bounded(c', dev, n) && Potential(c', dev, n) + Failures(c, acts, c', dev) <= Potential(c, dev, n)
    decreases |acts|
  {
    hide Enabled, Act, Bounded, Potential, FailsOn, EndsAfterH2;
    if acts == [] {
    } else {
      MoveKeepsBounded(c, acts[0], dev, n);
      MovePays(c, acts[0], dev, n);
      RunPays(Act(c, acts[0]), acts[1..], c', dev, n);
    }
  }

  /** Every run, interrupted or not: a device that starts with its own assignment of tier `t` and
      no installation under way runs out of memory at most 2(t + 1) times, so at most ten. */
  lemma FailuresAreBounded(c: Machine, acts: seq<Move>, c': Machine, dev: nat)
    requires Runs(c, acts, c') && AllAfterH2(c, acts, c', dev)
    requires c.stage.Idle? && dev in c.s.tiers && TierIndex(c.s.tiers[dev], H2_ACTIVATION).Some?
    ensures Failures(c, acts, c', dev) <= 2 * (TierIndex(c.s.tiers[dev], H2_ACTIVATION).value + 1) <= 10
  {
    hide Failures, Runs;
    TierModelIndex(c.s.tiers[dev], H2_ACTIVATION);
    RunPays(c, acts, c', dev, TierIndex(c.s.tiers[dev], H2_ACTIVATION).value + 1);
  }

  // ---- the bound is attained ----

  /** What a device fails into: the next smaller tier is the only model at hand. */
  function Served(t: nat): seq<Model>
    requires t < 5
  {
    if t == 0 then [] else [TierModel(t - 1)]
  }

  function Failing(t: nat): Env
    requires t < 5
  {
    Env(Served(t), Some(1), true, OutOfMemory)
  }

  function Load(dev: nat, t: nat): seq<Move>
    requires t < 5
  {
    [Start(dev), Check(Failing(t))]
  }

  /** Inference runs out of memory on tier `t`. */
  function Inference(dev: nat, t: nat): Move
    requires t < 5
  {
    Interrupt(InferenceOom(dev, TierModel(t), Served(t)))
  }

  /** A load of tier `t` that inference overtakes: both run out of memory. */
  function Overtaken(dev: nat, t: nat): seq<Move>
    requires t < 5
  {
    Load(dev, t) + [Inference(dev, t), Conclude(H2_ACTIVATION, Failing(t))]
  }

  /** The device is assigned tier `t`, none of whose smaller or equal models is banlisted. */
  predicate Untried(s: State, dev: nat, t: nat) {
    && t < 5 && dev !in s.miners && dev in s.tiers && s.tiers[dev] == TierModel(t)
    && forall i :: 0 <= i <= t ==> (dev, TierModel(i)) !in s.banlist
  }

  lemma PickOnly(banlist: set<(nat, Model)>, dev: nat, t: nat)
    requires t < 5 && forall i :: 0 <= i < t ==> (dev, TierModel(i)) !in banlist
    ensures Pick(banlist, dev, t, H2_ACTIVATION, Served(t)) == if t == 0 then None else Some(TierModel(t - 1))
  {
    if t > 0 {
      TierModelIndex(TierModel(t - 1), H2_ACTIVATION);
      assert Served(t)[1..] == [];
    }
  }

  // A failure on tier `t` hands over tier `t - 1`.
  lemma DowngradeOnly(s: State, dev: nat, t: nat)
    requires t < 5 && forall i :: 0 <= i < t ==> (dev, TierModel(i)) !in s.banlist
    ensures var s' := Downgrade(Ban(s, dev, TierModel(t)), dev, TierModel(t), H2_ACTIVATION, Served(t));
      && s'.banlist == s.banlist + {(dev, TierModel(t))} && s'.miners == s.miners
      && s'.tiers == if t == 0 then s.tiers else s.tiers[dev := TierModel(t - 1)]
  {
    TierModelIndex(TierModel(t), H2_ACTIVATION);
    TiersDiffer(t);
    PickOnly(Ban(s, dev, TierModel(t)).banlist, dev, t);
  }

  lemma TiersDiffer(t: nat)
    requires t < 5
    ensures forall i :: 0 <= i < t ==> TierModel(i) != TierModel(t)
  {
  }

  // The load up to the point where it is tried.
  lemma Tries(s: State, dev: nat, t: nat) returns (c: Machine)
    requires Untried(s, dev, t)
    ensures Runs(Machine(s, Idle), Load(dev, t), c) && Failures(Machine(s, Idle), Load(dev, t), c, dev) == 0
    ensures c.stage == Loading(dev, TierModel(t)) && Untried(c.s, dev, t)
  {
    hide Runs, Failures, Sibling, FirstKey;
    var c0 := Machine(s, Idle);
    OneMove(c0, Start(dev), dev);
    var c1 := Act(c0, Start(dev));
    assert c1 == Machine(s, Read(dev, TierModel(t)));
    CheckPasses(s, dev, t);
    OneMove(c1, Check(Failing(t)), dev);
    c := Act(c1, Check(Failing(t)));
    RunsConcat(c0, [Start(dev)], c1, [Check(Failing(t))], c, dev);
    assert [Start(dev)] + [Check(Failing(t))] == Load(dev, t);
  }

  lemma CheckPasses(s: State, dev: nat, t: nat)
    requires Untried(s, dev, t)
    ensures var (s', m) := PrepareFor(s, dev, TierModel(t), Failing(t));
      m == Some(TierModel(t)) && s'.(indices := s.indices) == s
  {
    hide Sibling;
  }

  // Both failures of tier `t`.
  lemma FailsTwice(s: State, dev: nat, t: nat) returns (s': State)
    requires Untried(s, dev, t)
    ensures Runs(Machine(s, Idle), Overtaken(dev, t), Machine(s', Idle))
    ensures Failures(Machine(s, Idle), Overtaken(dev, t), Machine(s', Idle), dev) == 2
    ensures t > 0 ==> Untried(s', dev, t - 1)
  {
    var c := Tries(s, dev, t);
    var c1 := InferenceFails(c, dev, t);
    s' := LoadFails(c1, dev, t);
    hide Runs, Failures;
    var both := [Inference(dev, t)] + [Conclude(H2_ACTIVATION, Failing(t))];
    RunsConcat(c, [Inference(dev, t)], c1, [Conclude(H2_ACTIVATION, Failing(t))], Machine(s', Idle), dev);
    RunsConcat(Machine(s, Idle), Load(dev, t), c, both, Machine(s', Idle), dev);
    assert Load(dev, t) + both == Overtaken(dev, t);
  }

  // The device has failed on tier `t`, and what is left is untried.
  predicate Fallen(s: State, dev: nat, t: nat) {
    t < 5 && dev !in s.miners && (forall i :: 0 <= i < t ==> (dev, TierModel(i)) !in s.banlist)
    && (t > 0 ==> dev in s.tiers && s.tiers[dev] == TierModel(t - 1))
  }

  lemma InferenceFails(c: Machine, dev: nat, t: nat) returns (c': Machine)
    requires Untried(c.s, dev, t) && c.stage == Loading(dev, TierModel(t))
    ensures Runs(c, [Inference(dev, t)], c') && Failures(c, [Inference(dev, t)], c', dev) == 1
    ensures Fallen(c'.s, dev, t) && c'.stage == c.stage
  {
    hide Runs, Failures, Downgrade, Ban;
    DowngradeOnly(c.s, dev, t);
    TiersDiffer(t);
    OneMove(c, Inference(dev, t), dev);
    c' := Act(c, Inference(dev, t));
  }

  lemma LoadFails(c: Machine, dev: nat, t: nat) returns (s': State)
    requires Fallen(c.s, dev, t) && c.stage == Loading(dev, TierModel(t))
    ensures Runs(c, [Conclude(H2_ACTIVATION, Failing(t))], Machine(s', Idle))
    ensures Failures(c, [Conclude(H2_ACTIVATION, Failing(t))], Machine(s', Idle), dev) == 1
    ensures t > 0 ==> Untried(s', dev, t - 1)
  {
    hide Runs, Failures, Downgrade, Ban;
    DowngradeOnly(c.s, dev, t);
    TiersDiffer(t);
    OneMove(c, Conclude(H2_ACTIVATION, Failing(t)), dev);
    s' := Act(c, Conclude(H2_ACTIVATION, Failing(t))).s;
  }

  /** The bound is attained: from every tier there is a run with exactly 2(t + 1) failures. */
  lemma {:induction false} BoundIsAttained(s: State, dev: nat, t: nat) returns (acts: seq<Move>, c': Machine)
    requires Untried(s, dev, t)
    ensures Runs(Machine(s, Idle), acts, c') && Failures(Machine(s, Idle), acts, c', dev) == 2 * (t + 1)
    decreases t
  {
    hide Runs, Failures, Overtaken;
    var s' := FailsTwice(s, dev, t);
    acts, c' := Overtaken(dev, t), Machine(s', Idle);
    if t > 0 {
      var rest, c := BoundIsAttained(s', dev, t - 1);
      RunsConcat(Machine(s, Idle), acts, c', rest, c, dev);
      acts, c' := acts + rest, c;
    }
  }

  // ---- loads of banlisted models ----

  /** The run contains an out-of-memory failure of the model on the device. */
  ghost predicate RanOut(c: Machine, acts: seq<Move>, c': Machine, dev: nat, m: Model)
    requires Runs(c, acts, c')
    decreases |acts|
  {
    acts != [] && (Fails(c, acts[0]) == Some((dev, m)) || RanOut(Act(c, acts[0]), acts[1..], c', dev, m))
  }

  /** Over every run, exactly the models that a device runs out of memory on are banlisted on it. */
  lemma {:induction false} BanlistedExactly(c: Machine, acts: seq<Move>, c': Machine, dev: nat, m: Model)
    requires Runs(c, acts, c')
    ensures (dev, m) in c'.s.banlist <==> (dev, m) in c.s.banlist || RanOut(c, acts, c', dev, m)
    decreases |acts|
  {
    hide Enabled, Act, Fails;
    if acts == [] {
    } else {
      MoveTiers(c, acts[0]);
      BanlistedExactly(Act(c, acts[0]), acts[1..], c', dev, m);
    }
  }

  /** Exactly when a load ends on a banlisted model: when its device has run out of memory on the
      model since the load passed the banlist. */
  lemma LoadsBanlistedExactly(c: Machine, env: Env, acts: seq<Move>, c': Machine)
    requires c.stage.Read? && Act(c, Check(env)).stage.Loading? && Runs(Act(c, Check(env)), acts, c')
    ensures (c.stage.dev, c.stage.model) in c'.s.banlist
      <==> RanOut(Act(c, Check(env)), acts, c', c.stage.dev, c.stage.model)
  {
    hide Fails, PrepareFor, Runs, RanOut;
    MoveStage(c, Check(env));
    BanlistedExactly(Act(c, Check(env)), acts, c', c.stage.dev, c.stage.model);
  }

  // ---- late failures ----

  /** The served models that a failure on `m` may hand the device. */
  predicate AtHand(s: State, dev: nat, m: Model, daa: nat, env: Env, x: Model)
    requires TierIndex(m, daa).Some?
  {
    x in env.served && Candidate(s.banlist + {(dev, m)}, dev, x, TierIndex(m, daa).value, daa)
  }

  /** Exactly what the failure of a load does to the tier the device is assigned by then: it is
      lowered when something is at hand and all of it is smaller, and raised when something
      larger is at hand.  For the assigned model itself nothing larger can be. */
  lemma FailureLowersExactly(c: Machine, daa: nat, env: Env)
    requires c.stage.Loading? && env.load.OutOfMemory? && c.stage.dev in c.s.tiers
    requires TierIndex(c.stage.model, daa).Some? && TierIndex(c.s.tiers[c.stage.dev], daa).Some?
    ensures var s, dev, m := c.s, c.stage.dev, c.stage.model;
      var s' := Act(c, Conclude(daa, env)).s;
      var before := TierIndex(s.tiers[dev], daa).value;
      && dev in s'.tiers && TierIndex(s'.tiers[dev], daa).Some?
      && var after := TierIndex(s'.tiers[dev], daa).value;
      && (after < before <==>
            && (exists x :: AtHand(s, dev, m, daa, env, x))
            && (forall x :: AtHand(s, dev, m, daa, env, x) ==> TierIndex(x, daa).value < before))
      && (after > before <==> exists x :: AtHand(s, dev, m, daa, env, x) && TierIndex(x, daa).value > before)
      && (s.tiers[dev] == m ==> after <= before)
  {
    hide TierIndex;
    var s, dev, m := c.s, c.stage.dev, c.stage.model;
    var r := Pick(s.banlist + {(dev, m)}, dev, TierIndex(m, daa).value, daa, env.served);
    if r.Some? {
      assert AtHand(s, dev, m, daa, env, r.value);
    }
  }

  /** A late failure that raises the tier, from every registry whose device is untried on Qwen
      32B: its load is overtaken by a downgrade to the smallest tier, and fails when a larger
      model has been served meanwhile. */
  lemma LateFailureRaisesTier(s: State, dev: nat) returns (acts: seq<Move>, c': Machine)
    requires Untried(s, dev, 3)
    ensures Runs(Machine(s, Idle), acts, c') && c'.stage == Loading(dev, Qwen32B)
    ensures dev in c'.s.tiers && c'.s.tiers[dev] == Qwen1B
    ensures var after := Act(c', Conclude(H2_ACTIVATION, Env([Gemma4B], None, true, OutOfMemory))).s;
      dev in after.tiers && after.tiers[dev] == Gemma4B
  {
    hide Runs, Failures, Sibling;
    var c := Tries(s, dev, 3);
    var e := InferenceOom(dev, Qwen32B, [Qwen1B]);
    c' := Act(c, Interrupt(e));
    OneMove(c, Interrupt(e), dev);
    RunsConcat(Machine(s, Idle), Load(dev, 3), c, [Interrupt(e)], c', dev);
    acts := Load(dev, 3) + [Interrupt(e)];
    assert (dev, TierModel(0)) !in c.s.banlist && (dev, TierModel(1)) !in c.s.banlist;
    PickOne(c.s.banlist + {(dev, Qwen32B)}, dev, 3, Qwen1B);
    PickOne(c'.s.banlist + {(dev, Qwen32B)}, dev, 3, Gemma4B);
  }

  lemma PickOne(banlist: set<(nat, Model)>, dev: nat, t: nat, m: Model)
    requires Candidate(banlist, dev, m, t, H2_ACTIVATION)
    ensures Pick(banlist, dev, t, H2_ACTIVATION, [m]) == Some(m)
  {
    assert [m][1..] == [];
  }
}
