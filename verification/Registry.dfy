/** The per-device mining registry: assigned tiers, possession indices, installed miners,
    and the out-of-memory banlist with its downgrade. */
module Registry {
  import opened Wrappers

  /** A model identifier; `Other` is any id that is not a tier model. */
  datatype Model = Qwen1B | Gemma4B | Dolphin8B | Qwen32B | Llama70B | Llama70BQ2 | Other(id: nat)

  const H2_ACTIVATION: nat := 38_951_445

  predicate IsPomModel(m: Model) {
    !m.Other?
  }

  function TierIndex(m: Model, daa: nat): Option<nat> {
    if daa >= H2_ACTIVATION then
      match m
      case Qwen1B => Some(0)
      case Gemma4B => Some(1)
      case Dolphin8B => Some(2)
      case Qwen32B => Some(3)
      case Llama70BQ2 => Some(4)
      case _ => None
    else
      match m
      case Gemma4B => Some(0)
      case Dolphin8B => Some(1)
      case Qwen32B => Some(2)
      case Llama70B => Some(3)
      case _ => None
  }

  /** An index or a miner: the model it was made from and its chunk count. */
  datatype Built = Built(model: Model, n: nat)

  datatype State = State(
    tiers: map<nat, Model>,
    indices: map<nat, Built>,
    miners: map<nat, Built>,
    banlist: set<(nat, Model)>,
    unsupported: set<nat>,
    busy: set<nat>)

  /** How an attempted load on the device ends; a panic counts as out of memory. */
  datatype Load = Loaded(n: nat) | OutOfMemory | BadPtx | OtherError

  /** What one call of `ensure_installed` meets: the downloaded models, the result of an
      index build, whether the inference engine holds the model, and the load. */
  datatype Env = Env(served: seq<Model>, build: Option<nat>, resident: bool, load: Load)

  // ---- lookups ----

  lemma {:induction false} LeastOf(keys: set<nat>) returns (k: nat)
    requires keys != {}
    ensures k in keys && forall j :: j in keys ==> k <= j
    decreases |keys|
  {
    var x :| x in keys;
    var rest := keys - {x};
    k := x;
    if rest != {} {
      var l := LeastOf(rest);
      k := if x <= l then x else l;
    }
    forall j | j in keys ensures k <= j {
      assert j == x || j in rest;
    }
  }

  function FirstKey(keys: set<nat>): (k: nat)
    requires keys != {}
    ensures k in keys && forall j :: j in keys ==> k <= j
  {
    assert exists k :: k in keys && forall j :: j in keys ==> k <= j by { var k := LeastOf(keys); }
    var k :| k in keys && forall j :: j in keys ==> k <= j;
    k
  }

  /** The device's own assignment, else the first assigned device's. */
  function MiningTier(tiers: map<nat, Model>, dev: nat): Option<Model> {
    if dev in tiers then Some(tiers[dev])
    else if tiers == map[] then None
    else Some(tiers[FirstKey(tiers.Keys)])
  }

  /** The index of the first device that has one for `m`. */
  function Sibling(indices: map<nat, Built>, m: Model): Option<Built> {
    var keys := set d | d in indices && indices[d].model == m;
    if keys == {} then None else Some(indices[FirstKey(keys)])
  }

  predicate Candidate(banlist: set<(nat, Model)>, dev: nat, m: Model, failedTier: nat, daa: nat) {
    TierIndex(m, daa).Some? && TierIndex(m, daa).value < failedTier && (dev, m) !in banlist
  }

  /** The largest-tier candidate of the list. */
  function Pick(banlist: set<(nat, Model)>, dev: nat, failedTier: nat, daa: nat, served: seq<Model>): (r: Option<Model>)
    ensures r.Some? ==> r.value in served && Candidate(banlist, dev, r.value, failedTier, daa)
    ensures forall m | m in served && Candidate(banlist, dev, m, failedTier, daa) ::
              r.Some? && TierIndex(m, daa).value <= TierIndex(r.value, daa).value
  {
    if served == [] then None
    else
      var rest, m := Pick(banlist, dev, failedTier, daa, served[1..]), served[0];
      if !Candidate(banlist, dev, m, failedTier, daa) then rest
      else if rest.Some? && TierIndex(m, daa).value <= TierIndex(rest.value, daa).value then rest
      else Some(m)
  }

  // ---- steps ----

  function Downgrade(s: State, dev: nat, failed: Model, daa: nat, served: seq<Model>): State {
    match TierIndex(failed, daa)
    case None => s
    case Some(t) =>
      match Pick(s.banlist, dev, t, daa, served)
      case None => s
      case Some(m) => s.(tiers := s.tiers[dev := m])
  }

  function Ban(s: State, dev: nat, m: Model): State {
    s.(banlist := s.banlist + {(dev, m)})
  }

  /** The index a device gets: the one it has, a sibling's, or a new one. */
  function IndexFor(s: State, dev: nat, m: Model, env: Env): Option<Built> {
    if dev in s.indices then Some(s.indices[dev])
    else if !IsPomModel(m) then None
    else match Sibling(s.indices, m)
      case Some(b) => Some(b)
      case None => if env.build.Some? then Some(Built(m, env.build.value)) else None
  }

  /** From the banlist on: the state in which loading `m` is tried, when the guards all pass. */
  function PrepareFor(s: State, dev: nat, m: Model, env: Env): (State, Option<Model>) {
    if (dev, m) in s.banlist then (s, None)
    else
      var s1 := if dev in s.indices && s.indices[dev].model != m then s.(indices := s.indices - {dev}) else s;
      match IndexFor(s1, dev, m, env)
      case None => (s1, None)
      case Some(b) => (s1.(indices := s1.indices[dev := b]), if dev == 0 && !env.resident then None else Some(m))
  }

  /** The state in which the load is tried, when the earlier guards all pass. */
  function Prepare(s: State, dev: nat, env: Env): (State, Option<Model>) {
    match MiningTier(s.tiers, dev)
    case None => (s, None)
    case Some(m) => PrepareFor(s, dev, m, env)
  }

  predicate Blocked(s: State, dev: nat) {
    dev in s.miners || dev in s.unsupported || dev in s.busy
  }

  /** The model that a call of `ensure_installed` tries to load onto the device, if any. */
  function Tried(s: State, dev: nat, env: Env): Option<Model> {
    if Blocked(s, dev) then None else Prepare(s, dev, env).1
  }

  /** What the outcome of loading `m` onto the device does. */
  function Finish(s: State, dev: nat, m: Model, daa: nat, env: Env): State {
    match env.load
    case Loaded(n) =>
      if dev in s.indices && n != s.indices[dev].n then s
      else s.(miners := s.miners[dev := Built(m, n)])
    case OutOfMemory => Downgrade(Ban(s, dev, m), dev, m, daa, env.served)
    case BadPtx => s.(unsupported := s.unsupported + {dev})
    case OtherError => s
  }

  function Ensure(s: State, dev: nat, daa: nat, env: Env): State {
    if Blocked(s, dev) then s
    else
      var (s1, m) := Prepare(s, dev, env);
      if m.None? then s1 else Finish(s1, dev, m.value, daa, env)
  }

  predicate InferenceOomApplies(s: State, dev: nat, m: Model) {
    dev in s.tiers && s.tiers[dev] == m && (dev, m) !in s.banlist
  }

  function Uninstalled(s: State, dev: nat): State {
    s.(miners := s.miners - {dev})
  }

  function AfterInferenceOom(s: State, dev: nat, m: Model, served: seq<Model>): State {
    if InferenceOomApplies(s, dev, m)
    then Uninstalled(Downgrade(Ban(s, dev, m), dev, m, H2_ACTIVATION, served), dev)
    else s
  }

  datatype Event =
    | EnsureInstalled(dev: nat, daa: nat, env: Env)
    | InferenceOom(dev: nat, model: Model, served: seq<Model>)
    | Evict(dev: nat)
    | SetBusy(dev: nat, on: bool)

  function Step(s: State, e: Event): State {
    match e
    case EnsureInstalled(dev, daa, env) => Ensure(s, dev, daa, env)
    case InferenceOom(dev, m, served) => AfterInferenceOom(s, dev, m, served)
    case Evict(dev) => Uninstalled(s, dev)
    case SetBusy(dev, on) => s.(busy := if on then s.busy + {dev} else s.busy - {dev})
  }

  function Run(s: State, es: seq<Event>): State
    decreases |es|
  {
    if es == [] then s else Run(Step(s, es[0]), es[1..])
  }

  // ---- what every step keeps ----

  /** Every installed miner has an index of its own model and chunk count, and a device with
      its own assignment mines the assigned model. */
  predicate Consistent(s: State) {
    && (forall d :: d in s.indices ==> IsPomModel(s.indices[d].model))
    && forall d :: d in s.miners ==>
         && d in s.indices && s.indices[d] == s.miners[d]
         && (d in s.tiers ==> s.tiers[d] == s.miners[d].model)
  }

  lemma PrepareKeeps(s: State, dev: nat, env: Env)
    requires Consistent(s) && dev !in s.miners
    ensures var (s1, m) := Prepare(s, dev, env);
      && Consistent(s1) && s1.(indices := s.indices) == s
      && (m.Some? ==> MiningTier(s.tiers, dev) == m && (dev, m.value) !in s.banlist
                      && dev in s1.indices && s1.indices[dev].model == m.value)
  {
  }

  lemma StepKeepsConsistent(s: State, e: Event)
    requires Consistent(s)
    ensures Consistent(Step(s, e))
  {
    hide TierIndex, Sibling, FirstKey;
    if e.EnsureInstalled? && !Blocked(s, e.dev) {
      PrepareKeeps(s, e.dev, e.env);
    }
  }

  /** From a consistent registry, every run stays consistent. */
  lemma {:induction false} RunKeepsConsistent(s: State, es: seq<Event>)
    requires Consistent(s)
    ensures Consistent(Run(s, es))
    decreases |es|
  {
    if es == [] {
    } else {
      StepKeepsConsistent(s, es[0]);
      RunKeepsConsistent(Step(s, es[0]), es[1..]);
    }
  }

  // ---- out-of-memory downgrades ----

  /** The (device, model) that an event runs out of memory on. */
  function OomOf(s: State, e: Event): Option<(nat, Model)> {
    match e
    case EnsureInstalled(dev, _, env) =>
      if Tried(s, dev, env).Some? && env.load.OutOfMemory? then Some((dev, Tried(s, dev, env).value)) else None
    case InferenceOom(dev, m, _) => if InferenceOomApplies(s, dev, m) then Some((dev, m)) else None
    case _ => None
  }

  /** The block score an event ranks tiers at. */
  function EventDaa(e: Event): nat {
    if e.EnsureInstalled? then e.daa else H2_ACTIVATION
  }

  function EventServed(e: Event): seq<Model> {
    if e.EnsureInstalled? then e.env.served else if e.InferenceOom? then e.served else []
  }

  /** The model that a device which fails on `m` is given instead, if any. */
  function Replacement(s: State, e: Event, dev: nat, m: Model): (r: Option<Model>)
    ensures r.Some? ==> r.value in EventServed(e) && (dev, r.value) !in s.banlist + {(dev, m)}
    ensures r.Some? ==>
      var failed, given := TierIndex(m, EventDaa(e)), TierIndex(r.value, EventDaa(e));
      failed.Some? && given.Some? && given.value < failed.value
  {
    var tier := TierIndex(m, EventDaa(e));
    if tier.None? then None else Pick(s.banlist + {(dev, m)}, dev, tier.value, EventDaa(e), EventServed(e))
  }

  /** All that a step does to assignments and banlist. */
  lemma StepTiers(s: State, e: Event)
    ensures OomOf(s, e).None? ==> Step(s, e).tiers == s.tiers && Step(s, e).banlist == s.banlist
    ensures OomOf(s, e).Some? ==>
      var (dev, m) := OomOf(s, e).value;
      && MiningTier(s.tiers, dev) == Some(m) && (dev, m) !in s.banlist
      && Step(s, e).banlist == s.banlist + {(dev, m)}
      && Step(s, e).tiers == match Replacement(s, e, dev, m) case None => s.tiers case Some(r) => s.tiers[dev := r]
  {
    hide TierIndex, Pick, Sibling, FirstKey;
  }

  /** A device's assignment changes only when it runs out of memory, to a strictly smaller
      tier that it has not run out of memory on. */
  lemma DowngradeLowersTier(s: State, e: Event, dev: nat, s': State)
    requires s' == Step(s, e) && dev in s.tiers && dev in s'.tiers && s'.tiers[dev] != s.tiers[dev]
    ensures OomOf(s, e) == Some((dev, s.tiers[dev]))
    ensures var before, after := TierIndex(s.tiers[dev], EventDaa(e)), TierIndex(s'.tiers[dev], EventDaa(e));
      before.Some? && after.Some? && after.value < before.value
    ensures (dev, s'.tiers[dev]) !in s'.banlist
  {
    hide Step, Replacement, OomOf, TierIndex;
    StepTiers(s, e);
    var (d, m) := OomOf(s, e).value;
    assert d == dev;
  }

  lemma {:induction false} BanlistGrows(s: State, es: seq<Event>)
    ensures s.banlist <= Run(s, es).banlist
    decreases |es|
  {
    if es == [] {
    } else {
      StepTiers(s, es[0]);
      BanlistGrows(Step(s, es[0]), es[1..]);
    }
  }

  /** After any run, a banlisted model is never tried again on its device. */
  lemma BanlistedNeverTried(s: State, es: seq<Event>, dev: nat, m: Model, env: Env)
    requires (dev, m) in s.banlist
    ensures Tried(Run(s, es), dev, env) != Some(m)
  {
    BanlistGrows(s, es);
  }

  /** How many events of a run are out-of-memory failures of `dev`. */
  function OomCount(s: State, es: seq<Event>, dev: nat): nat
    decreases |es|
  {
    if es == [] then 0
    else
      (if OomOf(s, es[0]).Some? && OomOf(s, es[0]).value.0 == dev then 1 else 0)
      + OomCount(Step(s, es[0]), es[1..], dev)
  }

  /** How many out-of-memory failures a device with its own assignment has left. */
  function OomsLeft(s: State, dev: nat): nat
    requires dev in s.tiers && TierIndex(s.tiers[dev], H2_ACTIVATION).Some?
  {
    if (dev, s.tiers[dev]) in s.banlist then 0 else TierIndex(s.tiers[dev], H2_ACTIVATION).value + 1
  }

  /** Installation of `dev` is only attempted from the five-tier activation on. */
  predicate AfterH2(es: seq<Event>, dev: nat) {
    forall i :: 0 <= i < |es| && es[i].EnsureInstalled? && es[i].dev == dev ==> es[i].daa >= H2_ACTIVATION
  }

  lemma OomStep(s: State, e: Event, dev: nat)
    requires dev in s.tiers && TierIndex(s.tiers[dev], H2_ACTIVATION).Some? && AfterH2([e], dev)
    ensures dev in Step(s, e).tiers && TierIndex(Step(s, e).tiers[dev], H2_ACTIVATION).Some?
    ensures OomsLeft(Step(s, e), dev) + (if OomOf(s, e).Some? && OomOf(s, e).value.0 == dev then 1 else 0)
      <= OomsLeft(s, dev)
  {
    hide Step, Replacement, OomOf;
    assert [e][0] == e;
    StepTiers(s, e);
    OomEvents(s, e);
  }

  lemma OomEvents(s: State, e: Event)
    ensures OomOf(s, e).Some? ==> var dev := OomOf(s, e).value.0;
      e == InferenceOom(dev, OomOf(s, e).value.1, EventServed(e)) || (e.EnsureInstalled? && e.dev == dev)
  {
  }

  /** Every run: a device that starts with its own assignment of tier `t` runs out of memory
      at most `t + 1` times, so at most five times. */
  lemma {:induction false} OomsAreBounded(s: State, es: seq<Event>, dev: nat)
    requires dev in s.tiers && TierIndex(s.tiers[dev], H2_ACTIVATION).Some? && AfterH2(es, dev)
    ensures OomCount(s, es, dev) <= TierIndex(s.tiers[dev], H2_ACTIVATION).value + 1 <= 5
    ensures OomCount(s, es, dev) <= OomsLeft(s, dev)
    decreases |es|
  {
    if es == [] {
    } else {
      assert es[0] == [es[0]][0];
      OomStep(s, es[0], dev);
      assert forall i :: 0 <= i < |es[1..]| ==> es[1..][i] == es[i + 1];
      OomsAreBounded(Step(s, es[0]), es[1..], dev);
    }
  }

  // ---- devices without their own assignment ----

  /** Every installed miner runs the model its device is assigned, own or fallback. */
  predicate MinesAssigned(s: State) {
    forall d :: d in s.miners ==> MiningTier(s.tiers, d) == Some(s.miners[d].model)
  }

  /** The event downgrades the first assigned device while a device without its own
      assignment is mining. */
  predicate DowngradesFallback(s: State, e: Event) {
    && OomOf(s, e).Some?
    && var (dev, m) := OomOf(s, e).value;
    && Replacement(s, e, dev, m).Some?
    && (forall j :: j in s.tiers ==> dev <= j)
    && exists d :: d in s.miners && d != dev && d !in s.tiers
  }

  // What a step does to the installed miners.
  lemma StepMiners(s: State, e: Event)
    requires Consistent(s)
    ensures OomOf(s, e).Some? ==> Step(s, e).miners == s.miners - {OomOf(s, e).value.0}
    ensures OomOf(s, e).None? ==> forall d :: d in Step(s, e).miners ==>
      || (d in s.miners && Step(s, e).miners[d] == s.miners[d])
      || MiningTier(s.tiers, d) == Some(Step(s, e).miners[d].model)
  {
    hide TierIndex, Pick, MiningTier, Sibling;
    if e.EnsureInstalled? && !Blocked(s, e.dev) {
      PrepareKeeps(s, e.dev, e.env);
    }
  }

  // Reassigning `dev` to `r` changes the fallback exactly when `dev` comes first.
  lemma FallbackAfter(tiers: map<nat, Model>, dev: nat, m: Model, r: Model, d: nat)
    requires MiningTier(tiers, dev) == Some(m) && r != m && d != dev
    ensures d in tiers ==> MiningTier(tiers[dev := r], d) == MiningTier(tiers, d)
    ensures d !in tiers ==>
      (MiningTier(tiers[dev := r], d) == MiningTier(tiers, d) <==> !forall j :: j in tiers ==> dev <= j)
  {
    var tiers' := tiers[dev := r];
    assert dev in tiers' && tiers'.Keys == tiers.Keys + {dev};
    var k, k' := FirstKey(tiers.Keys), FirstKey(tiers'.Keys);
    if forall j :: j in tiers ==> dev <= j {
      assert k' == dev;
      assert dev in tiers ==> k == dev;
    } else {
      assert k' == k != dev;
    }
  }

  /** The assignment a block is labelled with matches every running miner after a step
      exactly when the step is not such a downgrade. */
  lemma AssignmentKeptExactly(s: State, e: Event)
    requires Consistent(s) && MinesAssigned(s)
    ensures MinesAssigned(Step(s, e)) <==> !DowngradesFallback(s, e)
  {
    hide Step, OomOf, Replacement, MiningTier;
    StepTiers(s, e);
    StepMiners(s, e);
    if OomOf(s, e).Some? {
      var (dev, m) := OomOf(s, e).value;
      var r := Replacement(s, e, dev, m);
      if r.Some? {
        forall d | d in s.miners && d != dev
          ensures d in s.tiers ==> MiningTier(Step(s, e).tiers, d) == Some(s.miners[d].model)
          ensures d !in s.tiers ==> (MiningTier(Step(s, e).tiers, d) == Some(s.miners[d].model)
                                     <==> !forall j :: j in s.tiers ==> dev <= j)
        {
          FallbackAfter(s.tiers, dev, m, r.value, d);
        }
      }
    }
  }

  // ---- the registry in place ----

  class Devices {
    var tiers: map<nat, Model>
    var indices: map<nat, Built>
    var miners: map<nat, Built>
    var banlist: set<(nat, Model)>
    var unsupported: set<nat>
    var busy: set<nat>

    ghost function Now(): State
      reads this
    {
      State(tiers, indices, miners, banlist, unsupported, busy)
    }

    constructor ()
      ensures Now() == State(map[], map[], map[], {}, {}, {}) && Consistent(Now())
    {
      tiers, indices, miners := map[], map[], map[];
      banlist, unsupported, busy := {}, {}, {};
    }

    method SetMiningTier(dev: nat, m: Model)
      modifies this`tiers
      ensures tiers == old(tiers)[dev := m]
    {
      tiers := tiers[dev := m];
    }

    method Uninstall(dev: nat)
      modifies this`miners
      ensures Now() == Uninstalled(old(Now()), dev)
    {
      miners := miners - {dev};
    }

    method InvalidateIndexUnless(dev: nat, m: Model)
      modifies this`indices
      ensures indices ==
        if dev in old(indices) && old(indices)[dev].model != m then old(indices) - {dev} else old(indices)
    {
      if dev in indices && indices[dev].model != m {
        indices := indices - {dev};
      }
    }

    method TryShareIndex(dev: nat, m: Model) returns (ok: bool)
      modifies this`indices
      ensures ok <==> dev in indices
      ensures indices == match Sibling(old(indices), m)
        case Some(b) => if dev in old(indices) then old(indices) else old(indices)[dev := b]
        case None => old(indices)
    {
      if dev in indices { return true; }
      var sibling := Sibling(indices, m);
      if sibling.None? { return false; }
      indices := indices[dev := sibling.value];
      ok := true;
    }

    method DowngradeAfterOom(dev: nat, failed: Model, daa: nat, served: seq<Model>) returns (applied: bool)
      modifies this`tiers
      ensures Now() == Downgrade(old(Now()), dev, failed, daa, served)
    {
      var tier := TierIndex(failed, daa);
      if tier.None? { return false; }
      var pick := Pick(banlist, dev, tier.value, daa, served);
      if pick.None? { return false; }
      SetMiningTier(dev, pick.value);
      applied := true;
    }

    // The guards and the index build before the load.
    method PrepareLoad(dev: nat, env: Env) returns (m: Option<Model>)
      modifies this`indices
      ensures Prepare(old(Now()), dev, env) == (Now(), m)
    {
      m := MiningTier(tiers, dev);
      if m.None? { return None; }
      if (dev, m.value) in banlist { return None; }
      InvalidateIndexUnless(dev, m.value);
      assert dev in indices ==> indices[dev := indices[dev]] == indices;
      if dev !in indices {
        if !IsPomModel(m.value) { return None; }
        var shared := TryShareIndex(dev, m.value);
        if !shared {
          if env.build.None? { return None; }
          indices := indices[dev := Built(m.value, env.build.value)];
        }
      }
      if dev == 0 && !env.resident { return None; }
    }

    method EnsureInstalled(dev: nat, daa: nat, env: Env) returns (ok: bool)
      modifies this
      ensures Now() == Ensure(old(Now()), dev, daa, env)
      ensures ok <==> dev in miners
    {
      if dev in miners { return true; }
      if dev in unsupported || dev in busy { return false; }
      var m := PrepareLoad(dev, env);
      if m.None? { return false; }
      match env.load
      case Loaded(n) =>
        if dev in indices && n != indices[dev].n { return false; }
        miners := miners[dev := Built(m.value, n)];
        return true;
      case OutOfMemory =>
        banlist := banlist + {(dev, m.value)};
        var _ := DowngradeAfterOom(dev, m.value, daa, env.served);
        return false;
      case BadPtx =>
        unsupported := unsupported + {dev};
        return false;
      case OtherError =>
        return false;
    }

    method NoteInferenceOom(dev: nat, m: Model, served: seq<Model>)
      modifies this
      ensures Now() == AfterInferenceOom(old(Now()), dev, m, served)
    {
      if dev in tiers && tiers[dev] == m && (dev, m) !in banlist {
        banlist := banlist + {(dev, m)};
        var _ := DowngradeAfterOom(dev, m, H2_ACTIVATION, served);
        Uninstall(dev);
      }
    }
  }
}
