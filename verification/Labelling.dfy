/** Which model a block is labelled with is read from the assignments.  Exactly when a move of
    the interleaved registry leaves a running miner with another model than its label. */
module Labelling {
  import opened Wrappers
  import opened Registry
  import opened Interleaving
  import opened Installation

  /** The load succeeds, but its device is no longer assigned the model, own or fallback. */
  predicate InstallsMislabelled(c: Machine, a: Move)
    requires Interleaving.Enabled(c, a)
  {
    && a.Conclude? && c.stage.dev in c.s.indices && a.env.load == Loaded(c.s.indices[c.stage.dev].n)
    && MiningTier(c.s.tiers, c.stage.dev) != Some(c.stage.model)
  }

  /** What a device is given when its load runs out of memory. */
  function Given(s: State, dev: nat, m: Model, daa: nat, env: Env): Option<Model> {
    if TierIndex(m, daa).None? then None
    else Pick(s.banlist + {(dev, m)}, dev, TierIndex(m, daa).value, daa, env.served)
  }

  /** Giving `r` to the device changes the fallback of a running miner to another model than it
      has now: the device comes first, and the miner has no assignment of its own. */
  predicate ShiftsFallback(s: State, dev: nat, r: Model) {
    && (forall j :: j in s.tiers ==> dev <= j)
    && exists d :: d in s.miners && d != dev && d !in s.tiers && MiningTier(s.tiers, d) != Some(r)
  }

  /** The load runs out of memory, and what its device is given shifts the fallback. */
  predicate FailureShifts(c: Machine, a: Move)
    requires Interleaving.Enabled(c, a)
  {
    && a.Conclude? && a.env.load.OutOfMemory?
    && var r := Given(c.s, c.stage.dev, c.stage.model, a.daa, a.env);
       r.Some? && ShiftsFallback(c.s, c.stage.dev, r.value)
  }

  predicate InterruptShifts(c: Machine, a: Move) {
    a.Interrupt? && DowngradesFallback(c.s, a.event)
  }

  predicate Mislabels(c: Machine, a: Move)
    requires Interleaving.Enabled(c, a)
  {
    InstallsMislabelled(c, a) || FailureShifts(c, a) || InterruptShifts(c, a)
  }

  lemma AssignedAfter(tiers: map<nat, Model>, dev: nat, r: Model, d: nat)
    requires d != dev
    ensures MiningTier(tiers[dev := r], d) ==
      if d in tiers then Some(tiers[d])
      else if forall j :: j in tiers ==> dev <= j then Some(r)
      else MiningTier(tiers, d)
  {
    var tiers' := tiers[dev := r];
    assert dev in tiers' && tiers'.Keys == tiers.Keys + {dev};
    if d !in tiers {
      var k' := FirstKey(tiers'.Keys);
      if forall j :: j in tiers ==> dev <= j {
        assert k' == dev;
      } else {
        assert k' == FirstKey(tiers.Keys) != dev;
      }
    }
  }

  lemma FailureKeepsExactly(c: Machine, daa: nat, env: Env)
    requires StageOk(c) && MinesAssigned(c.s) && c.stage.Loading? && env.load.OutOfMemory?
    ensures MinesAssigned(Act(c, Conclude(daa, env)).s) <==> !FailureShifts(c, Conclude(daa, env))
  {
    hide TierIndex, Pick, MiningTier;
    var s, dev := c.s, c.stage.dev;
    var r := Given(s, dev, c.stage.model, daa, env);
    FailureGives(c, daa, env);
    if r.Some? {
      forall d | d in s.miners
        ensures MiningTier(s.tiers[dev := r.value], d) == Some(s.miners[d].model)
          <==> !(d !in s.tiers && (forall j :: j in s.tiers ==> dev <= j) && MiningTier(s.tiers, d) != Some(r.value))
      {
        AssignedAfter(s.tiers, dev, r.value, d);
        OwnAssignment(s.tiers, d);
      }
    }
  }

  lemma OwnAssignment(tiers: map<nat, Model>, d: nat)
    ensures d in tiers ==> MiningTier(tiers, d) == Some(tiers[d])
  {
  }

  lemma FailureGives(c: Machine, daa: nat, env: Env)
    requires c.stage.Loading? && env.load.OutOfMemory?
    ensures var r, s' := Given(c.s, c.stage.dev, c.stage.model, daa, env), Act(c, Conclude(daa, env)).s;
      s'.miners == c.s.miners && s'.tiers == if r.Some? then c.s.tiers[c.stage.dev := r.value] else c.s.tiers
  {
    hide TierIndex, Pick;
  }

  lemma LoadKeepsExactly(c: Machine, daa: nat, env: Env)
    requires StageOk(c) && MinesAssigned(c.s) && c.stage.Loading? && !env.load.OutOfMemory?
    ensures MinesAssigned(Act(c, Conclude(daa, env)).s) <==> !InstallsMislabelled(c, Conclude(daa, env))
  {
    hide MiningTier;
  }

  /** Over the interleaved registry: one move leaves every running miner with the model it is
      labelled with, own assignment or fallback, exactly when it does none of three things: end a
      load of a model that its device is no longer assigned, fail a load so that the fallback of
      a running miner shifts, or interrupt with a downgrade that shifts it. */
  lemma MoveKeepsLabelsExactly(c: Machine, a: Move)
    requires Consistent(c.s) && StageOk(c) && MinesAssigned(c.s) && Interleaving.Enabled(c, a)
    ensures MinesAssigned(Act(c, a).s) <==> !Mislabels(c, a)
  {
    hide Consistent, StageOk, MinesAssigned, DowngradesFallback, Given, ShiftsFallback, PrepareFor, Step, MiningTier;
    match a
    case Start(dev) =>
    case Check(env) => CheckKeepsLabels(c, env);
    case Interrupt(e) => AssignmentKeptExactly(c.s, e);
    case Conclude(daa, env) =>
      if env.load.OutOfMemory? {
        FailureKeepsExactly(c, daa, env);
      } else {
        LoadKeepsExactly(c, daa, env);
      }
  }

  lemma CheckKeepsLabels(c: Machine, env: Env)
    requires MinesAssigned(c.s) && c.stage.Read?
    ensures MinesAssigned(Act(c, Check(env)).s)
  {
    hide MiningTier, IndexFor;
  }

  /** No move of the run mislabels. */
  ghost predicate NeverMislabels(c: Machine, acts: seq<Move>, c': Machine)
    requires Interleaving.Runs(c, acts, c')
    decreases |acts|
  {
    acts != [] ==> !Mislabels(c, acts[0]) && NeverMislabels(Act(c, acts[0]), acts[1..], c')
  }

  // A miner that is stale for a device with its own assignment is mislabelled.
  lemma StaleIsMislabelled(c: Machine, a: Move)
    requires Interleaving.Enabled(c, a) && InstallsStale(c, a)
    ensures Mislabels(c, a)
  {
    hide FailureShifts, InterruptShifts;
  }

  /** Every run, interrupted or not, that never mislabels keeps all running miners labelled with
      the model they run, and the registry consistent. */
  lemma {:induction false} RunKeepsLabels(c: Machine, acts: seq<Move>, c': Machine)
    requires Consistent(c.s) && StageOk(c) && MinesAssigned(c.s)
    requires Interleaving.Runs(c, acts, c') && NeverMislabels(c, acts, c')
    ensures Consistent(c'.s) && StageOk(c') && MinesAssigned(c'.s)
    decreases |acts|
  {
    hide Consistent, StageOk, MinesAssigned, Act, Interleaving.Enabled, Mislabels, InstallsStale;
    if acts == [] {
    } else {
      if InstallsStale(c, acts[0]) {
        StaleIsMislabelled(c, acts[0]);
      }
      MoveKeepsLabelsExactly(c, acts[0]);
      MoveKeepsConsistentExactly(c, acts[0]);
      MoveKeepsStageOk(c, acts[0]);
      RunKeepsLabels(Act(c, acts[0]), acts[1..], c');
    }
  }

  // ---- a mislabelled fallback device ----

  /** Only device 0 is assigned, and nothing is built yet. */
  function Uniform(m: Model): State {
    State(map[0 := m], map[], map[], {}, {}, {})
  }

  const BUILD: Env := Env([], Some(1), true, Loaded(1))

  /** Device 0 fails in inference; the smallest tier is at hand. */
  const DOWNGRADE: Event := InferenceOom(0, Gemma4B, [Qwen1B])

  /** The load of device 1 up to where it is tried. */
  const LOAD: seq<Move> := [Start(1), Check(BUILD)]

  /** The registry is consistent, and every running miner is labelled with its model. */
  predicate AllIsWell(c: Machine) {
    Consistent(c.s) && MinesAssigned(c.s)
  }

  /** A device without its own assignment is mislabelled although the registry stays consistent:
      its load is overtaken by a downgrade of the one assigned device, which no miner relies on
      yet, and then succeeds. */
  lemma FallbackIsMislabelled() returns (c: Machine)
    ensures Interleaving.Runs(Machine(Uniform(Gemma4B), Idle), LOAD, c) && AllIsWell(c)
    ensures c.stage == Loading(1, Gemma4B) && !DowngradesFallback(c.s, DOWNGRADE)
    ensures var c1 := Act(c, Interrupt(DOWNGRADE));
      && AllIsWell(c1) && !InstallsStale(c1, Conclude(H2_ACTIVATION, BUILD))
      && var s := Act(c1, Conclude(H2_ACTIVATION, BUILD)).s;
         Consistent(s) && 1 in s.miners && s.miners[1].model == Gemma4B && MiningTier(s.tiers, 1) == Some(Qwen1B)
  {
    c := FallbackLoads();
    var c1 := Act(c, Interrupt(DOWNGRADE));
    assert {} + {(0, Gemma4B)} == {(0, Gemma4B)};
    OnlyServed({(0, Gemma4B)});
    assert c1.s.tiers == map[0 := Qwen1B] && c1.s.miners == map[];
    assert map[0 := Qwen1B].Keys == {0};
    hide Interleaving.Runs, Failures;
  }

  lemma OnlyServed(banlist: set<(nat, Model)>)
    requires (0, Qwen1B) !in banlist
    ensures Pick(banlist, 0, 1, H2_ACTIVATION, [Qwen1B]) == Some(Qwen1B)
  {
    assert [Qwen1B][1..] == [];
  }

  lemma FallbackLoads() returns (c: Machine)
    ensures Interleaving.Runs(Machine(Uniform(Gemma4B), Idle), LOAD, c)
    ensures c == Machine(Uniform(Gemma4B).(indices := map[1 := Built(Gemma4B, 1)]), Loading(1, Gemma4B))
  {
    hide Interleaving.Runs, Failures;
    var c0 := Machine(Uniform(Gemma4B), Idle);
    assert map[0 := Gemma4B].Keys == {0};
    OneMove(c0, Start(1), 1);
    var c1 := Act(c0, Start(1));
    assert c1 == Machine(Uniform(Gemma4B), Read(1, Gemma4B));
    OneMove(c1, Check(BUILD), 1);
    c := Act(c1, Check(BUILD));
    RunsConcat(c0, [Start(1)], c1, [Check(BUILD)], c, 1);
    assert [Start(1)] + [Check(BUILD)] == LOAD;
    assert map[][1 := Built(Gemma4B, 1)] == map[1 := Built(Gemma4B, 1)];
  }
}
