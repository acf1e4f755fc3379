/** When a call of `ensure_installed` gets as far as loading a model, and all that it changes;
    and the tier tables as lists. */
module RegistryEffects {
  import opened Wrappers
  import opened Registry

  // ---- tiers ----

  const FOUR_TIERS: seq<Model> := [Gemma4B, Dolphin8B, Qwen32B, Llama70B]
  const FIVE_TIERS: seq<Model> := [Qwen1B, Gemma4B, Dolphin8B, Qwen32B, Llama70BQ2]

  /** A model's tier is its rank in the list of its era, from score 38 951 445 on the longer one. */
  lemma TierIsRank(m: Model, daa: nat, t: nat)
    ensures TierIndex(m, daa) == Some(t) <==>
      var tiers := if daa >= 38_951_445 then FIVE_TIERS else FOUR_TIERS; t < |tiers| && tiers[t] == m
  {
  }

  /** A model can be mined exactly when it has a tier in some era. */
  lemma PomModelExactly(m: Model)
    ensures IsPomModel(m) <==> TierIndex(m, 0).Some? || TierIndex(m, 38_951_445).Some?
  {
  }

  // ---- the load ----

  /** The device is assigned `m`: by itself, or, without an assignment, by the first device
      that has one. */
  predicate Assigned(tiers: map<nat, Model>, dev: nat, m: Model) {
    if dev in tiers then tiers[dev] == m
    else exists f :: f in tiers && tiers[f] == m && forall j :: j in tiers ==> f <= j
  }

  lemma AssignedExactly(tiers: map<nat, Model>, dev: nat, m: Model)
    ensures MiningTier(tiers, dev) == Some(m) <==> Assigned(tiers, dev, m)
  {
    if dev !in tiers && tiers != map[] {
      var k := FirstKey(tiers.Keys);
      assert k in tiers;
      if Assigned(tiers, dev, m) {
        var f :| f in tiers && tiers[f] == m && forall j :: j in tiers ==> f <= j;
        assert f == k;
      }
    }
  }

  /** Device `f` is the first one with an index of `m`. */
  predicate FirstWith(indices: map<nat, Built>, m: Model, f: nat) {
    f in indices && indices[f].model == m && forall j :: j in indices && indices[j].model == m ==> f <= j
  }

  /** The index that the device ends up with has `n` chunks: its own if it is one of `m`,
      else that of the first device with one of `m`, else a newly built one. */
  ghost predicate Indexed(indices: map<nat, Built>, dev: nat, m: Model, build: Option<nat>, n: nat) {
    if dev in indices && indices[dev].model == m then indices[dev].n == n
    else if exists f :: FirstWith(indices, m, f) then
      IsPomModel(m) && exists f :: FirstWith(indices, m, f) && indices[f].n == n
    else IsPomModel(m) && build == Some(n)
  }

  /** Every guard before the load of `m` passes, with an index of `n` chunks. */
  ghost predicate Ready(s: State, dev: nat, env: Env, m: Model, n: nat) {
    && dev !in s.miners && dev !in s.unsupported && dev !in s.busy
    && Assigned(s.tiers, dev, m) && (dev, m) !in s.banlist
    && Indexed(s.indices, dev, m, env.build, n)
    && (dev == 0 ==> env.resident)
  }

  // With a stale index dropped, the index for the device.
  lemma IndexExactly(s: State, dev: nat, m: Model, env: Env, n: nat)
    requires dev in s.indices ==> s.indices[dev].model == m
    ensures IndexFor(s, dev, m, env) == Some(Built(m, n)) <==> Indexed(s.indices, dev, m, env.build, n)
    ensures IndexFor(s, dev, m, env).Some? ==> IndexFor(s, dev, m, env).value.model == m
  {
    hide FirstKey;
    var keys := set d | d in s.indices && s.indices[d].model == m;
    if keys != {} {
      var k := FirstKey(keys);
      assert k in keys;
      forall j | j in s.indices && s.indices[j].model == m ensures k <= j {
        assert j in keys;
      }
      assert FirstWith(s.indices, m, k);
      assert forall f :: FirstWith(s.indices, m, f) ==> f == k by {
        forall f | FirstWith(s.indices, m, f) ensures f == k {
          assert f in keys;
        }
      }
    } else {
      assert forall f :: f in s.indices && s.indices[f].model == m ==> f in keys;
    }
  }

  // Dropping another model's index changes nothing about the indices of `m`.
  lemma StaleIndex(indices: map<nat, Built>, dev: nat, m: Model, build: Option<nat>, n: nat)
    requires dev in indices && indices[dev].model != m
    ensures Indexed(indices - {dev}, dev, m, build, n) <==> Indexed(indices, dev, m, build, n)
  {
    forall f ensures FirstWith(indices - {dev}, m, f) <==> FirstWith(indices, m, f) {
      if FirstWith(indices, m, f) {
        assert f != dev;
      }
      if FirstWith(indices - {dev}, m, f) {
        forall j | j in indices && indices[j].model == m ensures f <= j {
          assert j in indices - {dev};
        }
      }
    }
  }

  // The state in which the device's index is looked for: another model's is dropped.
  function Fresh(s: State, dev: nat, m: Model): State {
    if dev in s.indices && s.indices[dev].model != m then s.(indices := s.indices - {dev}) else s
  }

  lemma FreshIndex(s: State, dev: nat, m: Model, env: Env, n: nat)
    ensures IndexFor(Fresh(s, dev, m), dev, m, env) == Some(Built(m, n)) <==> Indexed(s.indices, dev, m, env.build, n)
    ensures IndexFor(Fresh(s, dev, m), dev, m, env).Some? ==>
      IndexFor(Fresh(s, dev, m), dev, m, env).value.model == m
  {
    hide IndexFor, Indexed;
    IndexExactly(Fresh(s, dev, m), dev, m, env, n);
    if dev in s.indices && s.indices[dev].model != m {
      StaleIndex(s.indices, dev, m, env.build, n);
    }
  }

  /** A call loads `m` exactly when every guard passes. */
  lemma LoadsExactly(s: State, dev: nat, env: Env, m: Model)
    ensures Tried(s, dev, env) == Some(m) <==> exists n :: Ready(s, dev, env, m, n)
  {
    hide IndexFor, Indexed, MiningTier, Assigned;
    AssignedExactly(s.tiers, dev, m);
    var b := IndexFor(Fresh(s, dev, m), dev, m, env);
    FreshIndex(s, dev, m, env, if b.Some? then b.value.n else 0);
    if n :| Ready(s, dev, env, m, n) {
      FreshIndex(s, dev, m, env, n);
    }
    if Tried(s, dev, env) == Some(m) {
      assert Ready(s, dev, env, m, b.value.n);
    }
  }

  lemma PreparedExactly(s: State, dev: nat, env: Env, m: Model, n: nat)
    requires Ready(s, dev, env, m, n)
    ensures !Blocked(s, dev) && Prepare(s, dev, env) == (s.(indices := s.indices[dev := Built(m, n)]), Some(m))
  {
    hide IndexFor, Indexed, MiningTier, Assigned;
    AssignedExactly(s.tiers, dev, m);
    FreshIndex(s, dev, m, env, n);
    assert Fresh(s, dev, m).indices[dev := Built(m, n)] == s.indices[dev := Built(m, n)];
  }

  /** What a call that loads `m` changes: the device has an index of the model; it mines exactly
      when the load holds as many chunks as the index; and it is marked unsupported exactly when
      its driver refuses the program. */
  lemma LoadEffect(s: State, dev: nat, daa: nat, env: Env, m: Model, n: nat)
    requires Ready(s, dev, env, m, n)
    ensures var s' := Step(s, EnsureInstalled(dev, daa, env));
      && s'.indices == s.indices[dev := Built(m, n)]
      && s'.miners == (if env.load == Loaded(n) then s.miners[dev := Built(m, n)] else s.miners)
      && s'.unsupported == (if env.load.BadPtx? then s.unsupported + {dev} else s.unsupported)
      && s'.busy == s.busy
  {
    hide Prepare, Ready, TierIndex, Pick, Blocked;
    PreparedExactly(s, dev, env, m, n);
  }

  /** A call that loads nothing changes at most the device's own index, and never leaves the
      device that it gets to look at an index of another model than its own. */
  lemma NoLoadEffect(s: State, dev: nat, daa: nat, env: Env)
    requires Tried(s, dev, env).None?
    ensures var s' := Step(s, EnsureInstalled(dev, daa, env));
      s'.(indices := s.indices) == s && s'.indices - {dev} == s.indices - {dev}
    ensures var s' := Step(s, EnsureInstalled(dev, daa, env));
      forall m | Assigned(s.tiers, dev, m) && (dev, m) !in s.banlist && !Blocked(s, dev) ::
        dev in s'.indices ==> s'.indices[dev].model == m
  {
    hide IndexFor, MiningTier, Assigned;
    forall m | Assigned(s.tiers, dev, m) ensures MiningTier(s.tiers, dev) == Some(m) {
      AssignedExactly(s.tiers, dev, m);
    }
    var tier := MiningTier(s.tiers, dev);
    if tier.Some? {
      FreshIndex(s, dev, tier.value, env, 0);
    }
  }

  // ---- running out of memory for inference ----

  /** Inference running out of memory bans the model and stops the miner exactly when the model
      is the device's own assignment and not yet banned. */
  lemma InferenceOomExactly(s: State, dev: nat, m: Model, served: seq<Model>)
    ensures var s', own := Step(s, InferenceOom(dev, m, served)), dev in s.tiers && s.tiers[dev] == m;
      && s'.banlist == (if own then s.banlist + {(dev, m)} else s.banlist)
      && s'.miners == (if own && (dev, m) !in s.banlist then s.miners - {dev} else s.miners)
      && s'.indices == s.indices && s'.unsupported == s.unsupported && s'.busy == s.busy
  {
  }
}
