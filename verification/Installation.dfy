/** An installation that other threads interrupt: the assignment is read at its start, the miner
    is installed at its end, and events of the registry may happen in between. */
module Installation {
  import opened Wrappers
  import opened Registry
  import opened Interleaving

  /** Installations exclude each other; anything else may interrupt one. */
  predicate Interrupts(es: seq<Event>) {
    forall i :: 0 <= i < |es| ==> !es[i].EnsureInstalled?
  }

  /** Some event of the run takes the device's assignment away from it. */
  predicate Reassigned(s: State, es: seq<Event>, dev: nat)
    decreases |es|
  {
    es != [] && (Reassigns(s, es[0], dev) || Reassigned(Step(s, es[0]), es[1..], dev))
  }

  /** The device runs out of memory on its assigned model, and a smaller one is at hand. */
  predicate Reassigns(s: State, e: Event, dev: nat) {
    && OomOf(s, e).Some? && OomOf(s, e).value.0 == dev
    && Replacement(s, e, dev, OomOf(s, e).value.1).Some?
  }

  lemma InterruptStep(s: State, e: Event, dev: nat)
    requires Consistent(s) && !e.EnsureInstalled?
    ensures Consistent(Step(s, e)) && Step(s, e).indices == s.indices && s.banlist <= Step(s, e).banlist
    ensures dev !in s.miners ==> dev !in Step(s, e).miners
    ensures dev in s.tiers <==> dev in Step(s, e).tiers
    ensures dev in s.tiers && !Reassigns(s, e, dev) ==> Step(s, e).tiers[dev] == s.tiers[dev]
    ensures Reassigns(s, e, dev) ==>
      dev in s.tiers && Step(s, e).tiers[dev] != s.tiers[dev] && (dev, s.tiers[dev]) in Step(s, e).banlist
      && (dev, Step(s, e).tiers[dev]) !in Step(s, e).banlist
  {
    hide TierIndex, Pick, Sibling, FirstKey, Consistent;
    StepKeepsConsistent(s, e);
    StepTiers(s, e);
  }

  // Once a model is banlisted, its device is never assigned it again.
  lemma {:induction false} BannedStaysAway(s: State, es: seq<Event>, dev: nat, m: Model)
    requires Consistent(s) && Interrupts(es) && dev in s.tiers && s.tiers[dev] != m && (dev, m) in s.banlist
    ensures var s' := Run(s, es); dev in s'.tiers && s'.tiers[dev] != m
    decreases |es|
  {
    hide Step, Consistent, Reassigns;
    if es == [] {
    } else {
      InterruptStep(s, es[0], dev);
      Rest(es);
      BannedStaysAway(Step(s, es[0]), es[1..], dev, m);
    }
  }

  lemma Rest(es: seq<Event>)
    requires Interrupts(es) && es != []
    ensures Interrupts(es[1..]) && !es[0].EnsureInstalled?
  {
  }

  /** What an interruption does to the assignment that the installation has read. */
  lemma {:induction false} InterruptRun(s: State, es: seq<Event>, dev: nat)
    requires Consistent(s) && Interrupts(es)
    ensures dev !in s.miners ==> dev !in Run(s, es).miners
    ensures var s' := Run(s, es);
      && Consistent(s') && s'.indices == s.indices && (dev in s'.tiers <==> dev in s.tiers)
      && (dev in s.tiers ==> (s'.tiers[dev] == s.tiers[dev] <==> !Reassigned(s, es, dev)))
      && (dev !in s.tiers ==> !Reassigned(s, es, dev))
    decreases |es|
  {
    hide Step, Consistent, Reassigns;
    if es == [] {
    } else {
      var s1 := Step(s, es[0]);
      InterruptStep(s, es[0], dev);
      Rest(es);
      InterruptRun(s1, es[1..], dev);
      if Reassigns(s, es[0], dev) {
        BannedStaysAway(s1, es[1..], dev, s.tiers[dev]);
      }
    }
  }

  /** Exactly when an interrupted installation leaves the registry consistent: unless the load
      succeeds with the chunk count of the index and an interruption has reassigned the device.
      In that one case the device ends up mining a model that it is not assigned. */
  lemma InterruptedInstallExactly(s: State, dev: nat, daa: nat, env: Env, es: seq<Event>)
    requires Consistent(s) && !Blocked(s, dev) && Prepare(s, dev, env).1.Some? && Interrupts(es)
    ensures var (s1, m) := Prepare(s, dev, env);
      var s2 := Run(s1, es);
      var s3 := Finish(s2, dev, m.value, daa, env);
      && dev in s1.indices
      && (!Consistent(s3) <==> env.load == Loaded(s1.indices[dev].n) && Reassigned(s1, es, dev))
      && (!Consistent(s3) ==>
            dev in s3.miners && s3.miners[dev].model == m.value && dev in s3.tiers && s3.tiers[dev] != m.value)
  {
    hide Reassigned, Run, TierIndex, Pick, Sibling, FirstKey, Prepare;
    var (s1, m) := Prepare(s, dev, env);
    PrepareKeeps(s, dev, env);
    InterruptRun(s1, es, dev);
    var s2 := Run(s1, es);
    if env.load.OutOfMemory? {
      LateOom(s2, dev, m.value, daa, env);
    }
  }

  // A late out-of-memory failure only touches the assignment of a device without a miner.
  lemma LateOom(s: State, dev: nat, m: Model, daa: nat, env: Env)
    requires Consistent(s) && dev !in s.miners && env.load.OutOfMemory?
    ensures Consistent(Finish(s, dev, m, daa, env))
  {
    hide TierIndex, Pick;
  }

  // ---- whole runs ----

  /** The device under installation has no miner, and once it loads, an index of the model. */
  predicate StageOk(c: Machine) {
    && (!c.stage.Idle? ==> c.stage.dev !in c.s.miners)
    && (c.stage.Loading? ==> c.stage.dev in c.s.indices && c.s.indices[c.stage.dev].model == c.stage.model)
  }

  /** The move installs a miner of a model that the device is no longer assigned. */
  predicate InstallsStale(c: Machine, a: Move)
    requires Interleaving.Enabled(c, a)
  {
    && a.Conclude? && c.stage.dev in c.s.indices && a.env.load == Loaded(c.s.indices[c.stage.dev].n)
    && c.stage.dev in c.s.tiers && c.s.tiers[c.stage.dev] != c.stage.model
  }

  lemma MoveKeepsStageOk(c: Machine, a: Move)
    requires Consistent(c.s) && StageOk(c) && Interleaving.Enabled(c, a)
    ensures StageOk(Act(c, a))
  {
    hide TierIndex, Pick, Sibling, FirstKey, Consistent;
    match a
    case Interrupt(e) =>
      if !c.stage.Idle? {
        InterruptStep(c.s, e, c.stage.dev);
        hide Step;
      }
    case Check(env) =>
      SiblingIsOfModel(c.s.indices, c.stage.model);
      SiblingIsOfModel(c.s.indices - {c.stage.dev}, c.stage.model);
    case _ =>
  }

  /** One move keeps a consistent registry consistent exactly when it does not install such a
      miner. */
  lemma MoveKeepsConsistentExactly(c: Machine, a: Move)
    requires Consistent(c.s) && StageOk(c) && Interleaving.Enabled(c, a)
    ensures Consistent(Act(c, a).s) <==> !InstallsStale(c, a)
  {
    match a
    case Start(dev) =>
    case Check(env) => CheckKeeps(c, env);
    case Interrupt(e) => StepKeepsConsistent(c.s, e);
    case Conclude(daa, env) => ConcludeKeeps(c, daa, env);
  }

  lemma CheckKeeps(c: Machine, env: Env)
    requires Consistent(c.s) && StageOk(c) && c.stage.Read?
    ensures Consistent(Act(c, Check(env)).s)
  {
    hide Sibling;
    SiblingIsOfModel(c.s.indices, c.stage.model);
    SiblingIsOfModel(c.s.indices - {c.stage.dev}, c.stage.model);
  }

  lemma SiblingIsOfModel(indices: map<nat, Built>, m: Model)
    ensures Sibling(indices, m).Some? ==> Sibling(indices, m).value.model == m
  {
  }

  lemma ConcludeKeeps(c: Machine, daa: nat, env: Env)
    requires Consistent(c.s) && StageOk(c) && c.stage.Loading?
    ensures Consistent(Act(c, Conclude(daa, env)).s) <==> !InstallsStale(c, Conclude(daa, env))
  {
    hide TierIndex, Pick;
    if env.load.OutOfMemory? {
      LateOom(c.s, c.stage.dev, c.stage.model, daa, env);
    }
  }

  /** No move of the run installs a miner of a model that its device is no longer assigned. */
  ghost predicate NeverStale(c: Machine, acts: seq<Move>, c': Machine)
    requires Interleaving.Runs(c, acts, c')
    decreases |acts|
  {
    acts != [] ==> !InstallsStale(c, acts[0]) && NeverStale(Act(c, acts[0]), acts[1..], c')
  }

  /** Every run, interrupted or not, stays consistent unless it installs a stale miner. */
  lemma {:induction false} InterruptedRunKeepsConsistent(c: Machine, acts: seq<Move>, c': Machine)
    requires Consistent(c.s) && StageOk(c) && Interleaving.Runs(c, acts, c') && NeverStale(c, acts, c')
    ensures Consistent(c'.s) && StageOk(c')
    decreases |acts|
  {
    hide Consistent, StageOk, Act, Interleaving.Enabled, InstallsStale;
    if acts == [] {
    } else {
      MoveKeepsStageOk(c, acts[0]);
      MoveKeepsConsistentExactly(c, acts[0]);
      InterruptedRunKeepsConsistent(Act(c, acts[0]), acts[1..], c');
    }
  }
}
