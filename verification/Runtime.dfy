/** The Lua backend as the registry sees it: a runtime that answers once for each plugin it is handed. */
module LuaRuntimes {
  import opened Wrappers
  import opened Distinctness
  import opened Manifests
  import opened Vetting
  import LuaBackends

  /**
   * What the registry hears of a group handed over when the backend's states are `pool`: a member
   * that is built runs the entry bytes it came with and holds the capabilities approved for it.
   */
  ghost function Answers(mode: LuaBackends.IsolationMode, pool: LuaBackends.Pool, world: LuaBackends.World,
                         config: Config, items: seq<ReadyItem>): (outcomes: seq<Outcome>)
    ensures |outcomes| == |items|
  {
    var g := LuaBackends.Group(ItemManifests(items), mode, pool);
    seq(|items|, i requires 0 <= i < |items| =>
      var m := items[i].manifest;
      if world.abiFits && LuaBackends.Fate(g, world, i).Built? then
        Loaded(m.name, Instance(items[i].entryBytes), ApprovedNames(config, m, items[i].signer))
      else Failed(m.name, m.dir))
  }

  /** The backend's own outcomes for a group of distinct names are those the registry hears of. */
  method Load(backend: LuaBackends.LuaBackend, items: seq<ReadyItem>, world: LuaBackends.World, ghost config: Config)
    returns (told: seq<LuaBackends.Outcome>, ghost outcomes: seq<Outcome>)
    requires backend.Valid() && Distinct(ItemNames(items))
    modifies backend`states, backend`surfaces, backend`poisoned, backend`next
    ensures backend.Valid() && |told| == |items|
    ensures outcomes == Answers(backend.mode, old(backend.Now()), world, config, items)
    ensures forall i :: 0 <= i < |items| ==>
      told[i].name == outcomes[i].name && (told[i].Loaded? <==> outcomes[i].Loaded?)
    ensures AnswersEach(outcomes, items, config) && Faithful(outcomes, items, config)
  {
    outcomes := Answers(backend.mode, backend.Now(), world, config, items);
    assert Manifests.Names(ItemManifests(items)) == ItemNames(items);
    told := backend.LoadGroup(ItemManifests(items), world);
    EachIsAnswered(backend.mode, old(backend.Now()), world, config, items);
    EachAnsweredOnce(outcomes, items, config);
  }

  lemma EachIsAnswered(mode: LuaBackends.IsolationMode, pool: LuaBackends.Pool, world: LuaBackends.World,
                       config: Config, items: seq<ReadyItem>)
    ensures AnswersEach(Answers(mode, pool, world, config, items), items, config)
  {
    hide LuaBackends.Fate, ApprovedNames;
    assert OutcomeNames(Answers(mode, pool, world, config, items)) == ItemNames(items);
  }

  /** So a registry whose only runtime is a Lua backend may rely on all it asks of its backends. */
  lemma LuaIsFaithful(backend: Backend, mode: LuaBackends.IsolationMode, pool: LuaBackends.Pool,
                      world: LuaBackends.World, config: Config)
    requires forall items :: backend.load(items) == Answers(mode, pool, world, config, items)
    ensures FaithfulBackends(map[Lua := backend], config) && Confined(map[Lua := backend])
  {
    forall items ensures AnswersEach(backend.load(items), items, config) {
      EachIsAnswered(mode, pool, world, config, items);
    }
    OneEachIsFaithful(map[Lua := backend], config);
  }
}
