/** The Lua backend: which plugins share a state, and which members of a group load. */
module LuaBackends {
  import opened Wrappers
  import opened Distinctness
  import opened Manifests
  import opened Components

  datatype IsolationMode = Shared | PerPlugin | PerGroup

  /** What evaluating one plugin's chunk, constructor and `exports` comes to. */
  datatype Built = NotBuilt | Panicked | Built(exports: bool)

  /**
   * What a load meets outside the backend: whether the rocks tree's C ABI fits, whether a state
   * can be built under this sandbox and setup, and what each plugin does when built with the
   * proxies of the named dependencies.
   */
  datatype World = World(abiFits: bool, creates: bool, build: (string, set<string>) -> Built)

  datatype Outcome = Loaded(name: string) | Failed(name: string)

  /** The stable proxy dependents hold, and the exports table it currently reads through to. */
  datatype Surface = Surface(proxy: nat, table: nat)

  /** The state each plugin runs in, and the states whose lock a panic has poisoned. */
  datatype Pool = Pool(states: map<string, nat>, poisoned: set<nat>)

  /** A group as a load finds it: its members in the order given, and the pool from before. */
  datatype Group = Group(ms: seq<Manifest>, mode: IsolationMode, pool: Pool)

  // ---------------------------------------------------------------- sharing of states

  /** Whether two members of one load belong in the same state. */
  ghost predicate SameUnit(ms: seq<Manifest>, mode: IsolationMode, a: string, b: string)
    requires a in Position(ms) && b in Position(ms)
  {
    match mode
    case Shared => true
    case PerPlugin => a == b
    case PerGroup => Connected(Edges(ms), Position(ms)[a], Position(ms)[b])
  }

  ghost predicate Known(g: Group, a: string) {
    a in g.pool.states || a in Position(g.ms)
  }

  /** Two plugins run in one state: both had it before, or neither had any and they belong together. */
  ghost predicate SameState(g: Group, a: string, b: string)
    requires Known(g, a) && Known(g, b)
  {
    if a in g.pool.states then b in g.pool.states && g.pool.states[a] == g.pool.states[b]
    else b !in g.pool.states && SameUnit(g.ms, g.mode, a, b)
  }

  /** After a group load, states recorded before are kept, and plugins share one exactly as they should. */
  ghost predicate SharesExactly(g: Group, after: map<string, nat>) {
    && (forall a <- g.pool.states :: a in after && after[a] == g.pool.states[a])
    && (forall a <- after :: Known(g, a))
    && (forall a, b :: a in after && b in after ==> (after[a] == after[b] <==> SameState(g, a, b)))
  }

  /** Where a new state is looked up while one group loads. */
  function UnitKey(mode: IsolationMode, component: int): int {
    if mode == PerGroup then component else 0
  }

  /** The next plugin of this component would find a state of its group to share. */
  predicate Joinable(mode: IsolationMode, component: int, groupStates: map<int, nat>) {
    mode != PerPlugin && UnitKey(mode, component) in groupStates
  }

  /** The pool in the middle of a group load that began with `before` and ids below `floor`. */
  ghost predicate Pooled(mode: IsolationMode, components: map<string, int>, before: map<string, nat>, floor: nat,
                         groupStates: map<int, nat>, states: map<string, nat>, next: nat)
  {
    && floor <= next
    && (forall a <- before :: a in states && states[a] == before[a] && before[a] < floor)
    && (forall a <- states :: a !in before ==> a in components && floor <= states[a] < next)
    && (forall k <- groupStates :: floor <= groupStates[k] < next)
    && (forall j, k :: j in groupStates && k in groupStates && groupStates[j] == groupStates[k] ==> j == k)
    && (if mode == PerPlugin then
          forall a, b :: a in states && b in states && a !in before && b !in before && states[a] == states[b] ==> a == b
        else
          forall a <- states :: a !in before ==>
            UnitKey(mode, components[a]) in groupStates && states[a] == groupStates[UnitKey(mode, components[a])])
  }

  lemma PooledLater(mode: IsolationMode, components: map<string, int>, before: map<string, nat>, floor: nat,
                    groupStates: map<int, nat>, states: map<string, nat>, next: nat, later: nat)
    requires Pooled(mode, components, before, floor, groupStates, states, next) && next <= later
    ensures Pooled(mode, components, before, floor, groupStates, states, later)
  {
  }

  lemma PooledJoins(mode: IsolationMode, components: map<string, int>, before: map<string, nat>, floor: nat,
                    groupStates: map<int, nat>, states: map<string, nat>, next: nat, name: string)
    requires Pooled(mode, components, before, floor, groupStates, states, next)
    requires name in components && name !in states && Joinable(mode, components[name], groupStates)
    ensures Pooled(mode, components, before, floor, groupStates,
              states[name := groupStates[UnitKey(mode, components[name])]], next)
    ensures groupStates[UnitKey(mode, components[name])] < next
  {
  }

  lemma PooledOpens(mode: IsolationMode, components: map<string, int>, before: map<string, nat>, floor: nat,
                    groupStates: map<int, nat>, states: map<string, nat>, next: nat, name: string)
    requires Pooled(mode, components, before, floor, groupStates, states, next)
    requires name in components && name !in states && !Joinable(mode, components[name], groupStates)
    ensures Pooled(mode, components, before, floor,
              if mode == PerPlugin then groupStates else groupStates[UnitKey(mode, components[name]) := next],
              states[name := next], next + 1)
  {
  }

  lemma PooledShares(g: Group, components: map<string, int>, floor: nat, groupStates: map<int, nat>,
                     states: map<string, nat>, next: nat)
    requires components.Keys == Position(g.ms).Keys && ComponentsExact(g.ms, components)
    requires Pooled(g.mode, components, g.pool.states, floor, groupStates, states, next)
    ensures SharesExactly(g, states)
  {
  }

  // ---------------------------------------------------------------- which members load

  /** Member `i` of the group can be handed the exports of `d`: an earlier member published them. */
  ghost predicate Provided(g: Group, world: World, i: nat, d: string)
    requires i <= |g.ms|
    decreases i, 0
  {
    exists j :: 0 <= j < i && g.ms[j].name == d && Fate(g, world, j) == Built(true)
  }

  /** An earlier member of that name did not load. */
  ghost predicate Broken(g: Group, world: World, i: nat, d: string)
    requires i <= |g.ms|
    decreases i, 0
  {
    exists j :: 0 <= j < i && g.ms[j].name == d && !Fate(g, world, j).Built?
  }

  /** An earlier member that runs in the same state panicked while it was built. */
  ghost predicate SpoiltBefore(g: Group, world: World, i: nat)
    requires i < |g.ms|
    decreases i, 0
  {
    exists j :: 0 <= j < i && SameState(g, g.ms[j].name, g.ms[i].name) && Fate(g, world, j) == Panicked
  }

  /** The state of member `i` is poisoned by its turn, from before or by an earlier member. */
  ghost predicate Poisoned(g: Group, world: World, i: nat)
    requires i < |g.ms|
    decreases i, 1
  {
    || (g.ms[i].name in g.pool.states && g.pool.states[g.ms[i].name] in g.pool.poisoned)
    || SpoiltBefore(g, world, i)
  }

  /** Member `i` gets as far as asking for a state. */
  ghost predicate Asks(g: Group, world: World, i: nat)
    requires i < |g.ms|
    decreases i, 1
  {
    && (g.mode == PerPlugin ==> g.ms[i].dependencies == [])
    && forall d <- g.ms[i].dependencies :: d.optional || !Broken(g, world, i, d.name)
  }

  /** Member `i` has a state after its turn: an old one, or one of its group's. */
  ghost predicate Housed(g: Group, world: World, i: nat)
    requires i < |g.ms|
    decreases i, 2
  {
    g.ms[i].name in g.pool.states || (Asks(g, world, i) && world.creates)
  }

  /** The plugin has a state once the first `i` members have had their turn. */
  ghost predicate HasState(g: Group, world: World, i: nat, x: string)
    requires i <= |g.ms|
  {
    x in g.pool.states || exists j :: 0 <= j < i && g.ms[j].name == x && Housed(g, world, j)
  }

  /** Member `i` is run: isolation allows its dependencies, and it has a sound state and all it requires. */
  ghost predicate Runs(g: Group, world: World, i: nat)
    requires i < |g.ms|
    decreases i, 3
  {
    && (g.mode == PerPlugin ==> g.ms[i].dependencies == []) && Housed(g, world, i)
    && (forall d <- g.ms[i].dependencies :: d.optional || Provided(g, world, i, d.name))
    && !Poisoned(g, world, i)
  }

  /**
   * What becomes of member `i`, told without the backend's bookkeeping: it is built exactly when
   * it has a state to live in that no panic has poisoned and every dependency it requires was
   * provided earlier (under per-plugin isolation, when it has no dependencies at all), and it builds.
   */
  ghost function Fate(g: Group, world: World, i: nat): Built
    requires i < |g.ms|
    decreases i, 4
  {
    if Runs(g, world, i) then world.build(g.ms[i].name, ProvidedTo(g, world, i)) else NotBuilt
  }

  ghost function ProvidedTo(g: Group, world: World, i: nat): set<string>
    requires i < |g.ms|
    decreases i, 1
  {
    set k | 0 <= k < |g.ms[i].dependencies| && Provided(g, world, i, g.ms[i].dependencies[k].name)
      :: g.ms[i].dependencies[k].name
  }

  // ---------------------------------------------------------------- the backend

  /** The proxies of the dependencies that have one, and whether a required one is missing. */
  function Wire(deps: seq<Dependency>, proxies: map<string, nat>): (wired: Option<set<string>>)
    ensures wired.None? <==> exists k :: 0 <= k < |deps| && !deps[k].optional && deps[k].name !in proxies
    ensures wired.Some? ==> wired.value == set k | 0 <= k < |deps| && deps[k].name in proxies :: deps[k].name
  {
    if deps == [] then Some({})
    else
      assert forall k :: 0 <= k < |deps[1..]| ==> deps[1..][k] == deps[k + 1];
      var rest := Wire(deps[1..], proxies);
      if deps[0].name in proxies then
        match rest
        case None => None
        case Some(names) => Some({deps[0].name} + names)
      else if deps[0].optional then rest
      else None
  }

  predicate RequiresFailed(deps: seq<Dependency>, failed: set<string>) {
    exists k :: 0 <= k < |deps| && !deps[k].optional && deps[k].name in failed
  }

  class LuaBackend {
    const mode: IsolationMode
    var states: map<string, nat>
    var surfaces: map<string, Surface>
    /** The states whose lock is poisoned. */
    var poisoned: set<nat>
    /** Identities below this have been handed out to states, proxies and tables. */
    var next: nat

    ghost predicate Valid()
      reads this
    {
      && (forall a <- states :: states[a] < next) && (forall p <- poisoned :: p < next)
      && (forall a <- surfaces :: surfaces[a].proxy < next && surfaces[a].table < next)
    }

    ghost function Now(): Pool
      reads this
    {
      Pool(states, poisoned)
    }

    constructor (mode: IsolationMode)
      ensures Valid() && this.mode == mode && Now() == Pool(map[], {}) && surfaces == map[]
    {
      this.mode := mode;
      states, surfaces, poisoned, next := map[], map[], {}, 0;
    }

    /** The state `name` runs in, created and recorded when missing. */
    method StateFor(name: string, components: map<string, int>, groupStates0: map<int, nat>, creates: bool,
                    ghost before: map<string, nat>, ghost floor: nat)
      returns (state: Option<nat>, groupStates: map<int, nat>)
      requires Valid() && name in components
      requires Pooled(mode, components, before, floor, groupStates0, states, next)
      modifies this`states, this`next
      ensures Valid() && old(next) <= next
      ensures Pooled(mode, components, before, floor, groupStates, states, next)
      ensures state.Some? <==> name in old(states) || creates || Joinable(mode, components[name], groupStates0)
      ensures states == if state.Some? then old(states)[name := state.value] else old(states)
      ensures state.Some? ==> name in states && states[name] == state.value
      ensures name in old(states) ==> states == old(states)
      ensures groupStates == groupStates0 || creates
    {
      hide Pooled;
      groupStates := groupStates0;
      if name in states {
        return Some(states[name]), groupStates;
      }
      var key := UnitKey(mode, components[name]);
      if mode != PerPlugin && key in groupStates {
        PooledJoins(mode, components, before, floor, groupStates, states, next, name);
        states := states[name := groupStates[key]];
        return Some(groupStates[key]), groupStates;
      }
      if !creates {
        return None, groupStates;
      }
      state := Some(next);
      PooledOpens(mode, components, before, floor, groupStates, states, next, name);
      if mode != PerPlugin {
        groupStates := groupStates[key := next];
      }
      states := states[name := next];
      next := next + 1;
    }

    /**
     * Loads one group member, wiring dependencies already loaded. A panic while it is built is
     * caught, but unwinds through the lock on the state it runs in.
     */
    method LoadMember(m: Manifest, world: World, components: map<string, int>, groupStates0: map<int, nat>,
                      proxies0: map<string, nat>, failed: set<string>,
                      ghost before: map<string, nat>, ghost floor: nat)
      returns (outcome: Outcome, groupStates: map<int, nat>, proxies: map<string, nat>, ghost built: Built)
      requires Valid() && m.name in components
      requires Pooled(mode, components, before, floor, groupStates0, states, next)
      requires groupStates0 != map[] ==> world.creates
      modifies this`states, this`surfaces, this`poisoned, this`next
      ensures Valid() && old(next) <= next
      ensures Pooled(mode, components, before, floor, groupStates, states, next)
      ensures groupStates != map[] ==> world.creates
      ensures outcome.name == m.name && (outcome.Loaded? <==> built.Built?)
      ensures Took(m, mode, world, Pool(old(states), old(poisoned)), proxies0, failed, built, Now())
      ensures proxies.Keys == PublishedTo(built, m.name, proxies0.Keys)
      ensures Published(built, m.name, old(surfaces), surfaces, proxies0, proxies)
      ensures Renewed(m.name, old(surfaces), surfaces, old(next))
    {
      hide Pooled, Took, Published, PublishedTo, Wire;
      groupStates, proxies := groupStates0, proxies0;
      outcome := Failed(m.name);
      built := NotBuilt;
      NothingPublished(m.name, surfaces, proxies);
      TookNothing(m, mode, world, Now(), proxies, failed);
      if mode == PerPlugin && m.dependencies != [] {
        // Values cannot cross states.
      } else if RequiresFailed(m.dependencies, failed) {
        // A required dependency that failed leaves this plugin unwired.
      } else {
        var state;
        state, groupStates := StateFor(m.name, components, groupStates, world.creates, before, floor);
        var wired := Wire(m.dependencies, proxies);
        ghost var was, placed := Pool(old(states), poisoned), Now();
        JoinableCreates(mode, components[m.name], groupStates0);
        TookState(m, mode, world, was, proxies, failed, state, placed);
        if state.Some? && wired.Some? && state.value !in poisoned {
          var answer := world.build(m.name, wired.value);
          built := answer;
          outcome, proxies := Conclude(m.name, answer, state.value, components, groupStates, proxies, before, floor);
        }
      }
    }

    /** Takes down what building a member came to. */
    method Conclude(name: string, answer: Built, state: nat, ghost components: map<string, int>,
                    ghost groupStates: map<int, nat>, proxies0: map<string, nat>,
                    ghost before: map<string, nat>, ghost floor: nat)
      returns (outcome: Outcome, proxies: map<string, nat>)
      requires Valid() && state < next
      requires Pooled(mode, components, before, floor, groupStates, states, next)
      modifies this`surfaces, this`poisoned, this`next
      ensures Valid() && old(next) <= next
      ensures Pooled(mode, components, before, floor, groupStates, states, next)
      ensures outcome == if answer.Built? then Loaded(name) else Failed(name)
      ensures poisoned == if answer == Panicked then old(poisoned) + {state} else old(poisoned)
      ensures proxies.Keys == PublishedTo(answer, name, proxies0.Keys)
      ensures Published(answer, name, old(surfaces), surfaces, proxies0, proxies)
      ensures Renewed(name, old(surfaces), surfaces, old(next))
    {
      hide Pooled;
      outcome, proxies := Failed(name), proxies0;
      match answer {
        case NotBuilt =>
        case Panicked =>
          poisoned := poisoned + {state};
        case Built(exports) =>
          if exports {
            var surface := Surface(next, next + 1);
            PooledLater(mode, components, before, floor, groupStates, states, next, next + 2);
            next := next + 2;
            proxies := proxies[name := surface.proxy];
            surfaces := surfaces[name := surface];
          }
          outcome := Loaded(name);
      }
    }

    /** Loads the members in turn, threading the group's states, proxies and failures through. */
    method LoadMembers(ms: seq<Manifest>, world: World, components: map<string, int>)
      returns (outcomes: seq<Outcome>, groupStates: map<int, nat>, proxies: map<string, nat>, failed: set<string>)
      requires Valid() && components.Keys == Position(ms).Keys && ComponentsExact(ms, components)
      modifies this`states, this`surfaces, this`poisoned, this`next
      ensures Valid() && old(next) <= next
      ensures |outcomes| == |ms| && forall i :: 0 <= i < |ms| ==> OutcomeFits(ms[i], outcomes[i], states)
      ensures Surfaced(old(surfaces), proxies, surfaces) && Anew(old(surfaces), surfaces, old(next))
      ensures Pooled(mode, components, old(states), old(next), groupStates, states, next)
      ensures Distinct(Names(ms)) ==>
        Tracks(Group(ms, mode, old(Now())), world, |ms|, outcomes, proxies.Keys, failed, Now())
    {
      hide Pooled, Loading, Took, Renewed, Published, PublishedTo, OutcomeFits, Surfaced, Tracks, ComponentsExact;
      AnewStarts(surfaces, next);
      hide Anew, SharesExactly, NewAreSound;
      outcomes, groupStates, proxies, failed := [], map[], map[], {};
      ghost var g, floor, first := Group(ms, mode, Now()), next, surfaces;
      LoadStarts(g, world, components, surfaces, next);
      for i := 0 to |ms|
        invariant Valid() && floor <= next
        invariant Pooled(mode, components, g.pool.states, floor, groupStates, states, next)
        invariant groupStates != map[] ==> world.creates
        invariant Loading(g, world, first, i, outcomes, proxies, failed, Now(), surfaces)
        invariant Anew(first, surfaces, floor)
      {
        ghost var proxies0, failed0, pool0, surfaces0, next0 := proxies, failed, Now(), surfaces, next;
        var outcome;
        ghost var built;
        outcome, groupStates, proxies, built :=
          LoadMember(ms[i], world, components, groupStates, proxies, failed, g.pool.states, floor);
        AnewOn(first, surfaces0, surfaces, floor, next0, ms[i].name);
        PooledShares(g, components, floor, groupStates, states, next);
        PooledIsNew(g, components, floor, groupStates, states, next);
        LoadingOn(g, world, first, i, outcomes, proxies0, failed0, pool0, surfaces0, outcome, built, proxies, Now(),
          surfaces);
        if outcome.Failed? {
          failed := failed + {outcome.name};
        }
        outcomes := outcomes + [outcome];
      }
      Loads(g, world, first, outcomes, proxies, failed, Now(), surfaces);
    }

    /** Loads a group in the order given, reporting one outcome per member. */
    method LoadGroup(ms: seq<Manifest>, world: World) returns (outcomes: seq<Outcome>)
      requires Valid()
      modifies this`states, this`surfaces, this`poisoned, this`next
      ensures Valid() && old(next) <= next
      ensures |outcomes| == |ms| && forall i :: 0 <= i < |ms| ==> OutcomeFits(ms[i], outcomes[i], states)
      ensures SharesExactly(Group(ms, mode, old(Now())), states)
      ensures Anew(old(surfaces), surfaces, old(next))
      ensures !world.abiFits ==>
        Now() == old(Now()) && surfaces == old(surfaces) && forall i :: 0 <= i < |ms| ==> outcomes[i].Failed?
      ensures world.abiFits && Distinct(Names(ms)) ==>
        var g := Group(ms, mode, old(Now()));
        && (forall i :: 0 <= i < |ms| ==> (outcomes[i].Loaded? <==> Fate(g, world, i).Built?))
        && (forall a :: a in states <==> HasState(g, world, |ms|, a))
        && (forall a :: a in surfaces <==> a in old(surfaces) || Provided(g, world, |ms|, a))
        && (forall p :: p in poisoned <==> Spoilt(g, world, |ms|, states, p))
    {
      if !world.abiFits {
        outcomes := seq(|ms|, i requires 0 <= i < |ms| => Failed(ms[i].name));
        return;
      }
      var components := DependencyComponents(ms);
      ghost var g, floor := Group(ms, mode, Now()), next;
      var groupStates, proxies, failed;
      outcomes, groupStates, proxies, failed := LoadMembers(ms, world, components);
      PooledShares(g, components, floor, groupStates, states, next);
    }

    /**
     * Rebuilds one plugin in the state it already runs in. Every proxy dependents hold stays;
     * the plugin's own is repointed at its new table, or kept as it was when anything fails.
     */
    method ReloadPlugin(m: Manifest, world: World) returns (ok: bool)
      requires Valid()
      modifies this`states, this`surfaces, this`poisoned, this`next
      ensures Valid() && old(next) <= next
      ensures forall a <- old(states) :: a in states && states[a] == old(states)[a]
      ensures states.Keys <= old(states).Keys + {m.name} && old(poisoned) <= poisoned
      ensures ok <==> Reloads(m, world, old(Now()), old(surfaces).Keys)
      ensures poisoned != old(poisoned) ==>
        m.name in states && poisoned == old(poisoned) + {states[m.name]} &&
        world.build(m.name, WiredBy(m, old(surfaces).Keys)) == Panicked
      ensures forall a <- old(surfaces) :: a in surfaces && surfaces[a].proxy == old(surfaces)[a].proxy
      ensures forall a <- surfaces :: a != m.name || !ok ==> a in old(surfaces) && surfaces[a] == old(surfaces)[a]
      ensures ok && m.name in surfaces ==> surfaces[m.name].table >= old(next)
      ensures ok ==> (m.name in surfaces <==> world.build(m.name, WiredBy(m, old(surfaces).Keys)) == Built(true))
    {
      var proxies := map a | a in surfaces :: surfaces[a].proxy;
      var state, units := StateFor(m.name, map[m.name := -1], map[], world.creates, states, next);
      var wired := Wire(m.dependencies, proxies);
      ok := false;
      if state.Some? && wired.Some? && state.value !in poisoned {
        assert wired.value == WiredBy(m, surfaces.Keys);
        match world.build(m.name, wired.value) {
          case NotBuilt =>
          case Panicked =>
            poisoned := poisoned + {state.value};
          case Built(exports) =>
            if exports {
              var proxy := if m.name in surfaces then surfaces[m.name].proxy else next;
              surfaces := surfaces[m.name := Surface(proxy, next + 1)];
              next := next + 2;
              ok := true;
            } else {
              // A plugin that published exports and now does not is a failure.
              ok := m.name !in surfaces;
            }
        }
      }
    }

    /** Forgets everything retained for one plugin, and nothing else. */
    method Unload(name: string)
      requires Valid()
      modifies this`states, this`surfaces
      ensures Valid()
      ensures states == old(states) - {name} && surfaces == old(surfaces) - {name}
    {
      states := states - {name};
      surfaces := surfaces - {name};
    }
  }

  /** The dependencies of `m` among the published surfaces. */
  ghost function WiredBy(m: Manifest, published: set<string>): set<string> {
    set k | 0 <= k < |m.dependencies| && m.dependencies[k].name in published :: m.dependencies[k].name
  }

  /** When a reload succeeds. */
  ghost predicate Reloads(m: Manifest, world: World, pool: Pool, published: set<string>) {
    && (if m.name in pool.states then pool.states[m.name] !in pool.poisoned else world.creates)
    && (forall d <- m.dependencies :: d.optional || d.name in published)
    && (match world.build(m.name, WiredBy(m, published))
        case NotBuilt => false
        case Panicked => false
        case Built(exports) => exports || m.name !in published)
  }

  // ---------------------------------------------------------------- bookkeeping against fate

  /** The state was poisoned before, or a member among the first `i` panicked in it. */
  ghost predicate Spoilt(g: Group, world: World, i: nat, states: map<string, nat>, p: nat)
    requires i <= |g.ms|
  {
    || p in g.pool.poisoned
    || exists j :: 0 <= j < i && Fate(g, world, j) == Panicked && g.ms[j].name in states && states[g.ms[j].name] == p
  }

  /** The outcomes, proxies, failures and states of the first `i` members are those their fates call for. */
  ghost predicate Tracks(g: Group, world: World, i: nat, outcomes: seq<Outcome>, proxies: set<string>,
                         failed: set<string>, now: Pool)
    requires i <= |g.ms|
  {
    && |outcomes| == i
    && (forall j :: 0 <= j < i ==> (outcomes[j].Loaded? <==> Fate(g, world, j).Built?))
    && (forall x :: x in proxies <==> Provided(g, world, i, x))
    && (forall x :: x in failed <==> Broken(g, world, i, x))
    && (forall x :: x in now.states <==> HasState(g, world, i, x))
    && (forall p :: p in now.poisoned <==> Spoilt(g, world, i, now.states, p))
  }

  /** States made in this load are none that was poisoned before. */
  ghost predicate NewAreSound(g: Group, states: map<string, nat>) {
    forall a <- states :: a !in g.pool.states ==> states[a] !in g.pool.poisoned
  }

  lemma PooledIsNew(g: Group, components: map<string, int>, floor: nat, groupStates: map<int, nat>,
                    states: map<string, nat>, next: nat)
    requires Pooled(g.mode, components, g.pool.states, floor, groupStates, states, next)
    requires forall p <- g.pool.poisoned :: p < floor
    ensures NewAreSound(g, states)
  {
  }

  lemma PanickedHasState(g: Group, world: World, j: nat)
    requires j < |g.ms| && Fate(g, world, j) == Panicked
    ensures HasState(g, world, j + 1, g.ms[j].name)
  {
  }

  /** Whether member `i` finds its state poisoned is read off the poisoned states. */
  lemma PoisonedIff(g: Group, world: World, i: nat, states: map<string, nat>, poisoned: set<nat>)
    requires i < |g.ms| && g.ms[i].name in states && SharesExactly(g, states) && NewAreSound(g, states)
    requires forall j :: 0 <= j < i && Fate(g, world, j) == Panicked ==> g.ms[j].name in states
    requires forall p :: p in poisoned <==> Spoilt(g, world, i, states, p)
    ensures states[g.ms[i].name] in poisoned <==> Poisoned(g, world, i)
  {
    var p := states[g.ms[i].name];
    assert p in poisoned <==> Spoilt(g, world, i, states, p);
    forall j | 0 <= j < i && Fate(g, world, j) == Panicked
      ensures states[g.ms[j].name] == p <==> SameState(g, g.ms[j].name, g.ms[i].name)
    {
    }
  }

  lemma BuiltForMeetsFate(g: Group, world: World, i: nat, outcomes: seq<Outcome>, proxies: map<string, nat>,
                          failed: set<string>, now: Pool, spoilt: bool)
    requires i < |g.ms| && Distinct(Names(g.ms))
    requires Tracks(g, world, i, outcomes, proxies.Keys, failed, now)
    requires Housed(g, world, i) ==> (spoilt <==> Poisoned(g, world, i))
    ensures GetsState(g.ms[i], g.mode, world, now.states.Keys, failed) <==> Housed(g, world, i)
    ensures BuiltFor(g.ms[i], g.mode, world, now.states.Keys, proxies, failed, spoilt) == Fate(g, world, i)
  {
    var m := g.ms[i];
    GetsStateIff(g, world, i, failed, now);
    RequiresFailedIff(g, world, i, failed);
    hide Housed, GetsState, Poisoned;
    if RequiresFailed(m.dependencies, failed) {
      var d :| d in m.dependencies && !d.optional && Broken(g, world, i, d.name);
      FailedIsNotProvided(g, world, i, d.name);
      assert !Runs(g, world, i);
    } else {
      WiredIff(g, world, i, proxies);
      hide Wire;
    }
  }

  lemma WiredIff(g: Group, world: World, i: nat, proxies: map<string, nat>)
    requires i < |g.ms| && forall x :: x in proxies <==> Provided(g, world, i, x)
    ensures Wire(g.ms[i].dependencies, proxies).Some? <==>
      forall d <- g.ms[i].dependencies :: d.optional || Provided(g, world, i, d.name)
    ensures Wire(g.ms[i].dependencies, proxies).Some? ==>
      Wire(g.ms[i].dependencies, proxies).value == ProvidedTo(g, world, i)
  {
    var deps := g.ms[i].dependencies;
    var wired := Wire(deps, proxies);
    if wired.None? {
      var k :| 0 <= k < |deps| && !deps[k].optional && deps[k].name !in proxies;
      assert deps[k] in deps;
    }
  }

  lemma GetsStateIff(g: Group, world: World, i: nat, failed: set<string>, now: Pool)
    requires i < |g.ms| && Distinct(Names(g.ms))
    requires forall x :: x in now.states <==> HasState(g, world, i, x)
    requires forall x :: x in failed <==> Broken(g, world, i, x)
    ensures GetsState(g.ms[i], g.mode, world, now.states.Keys, failed) <==> Housed(g, world, i)
    ensures g.ms[i].name in now.states <==> g.ms[i].name in g.pool.states
  {
    assert forall j :: 0 <= j < i ==> g.ms[j].name == Names(g.ms)[j] != Names(g.ms)[i];
    RequiresFailedIff(g, world, i, failed);
  }

  lemma RequiresFailedIff(g: Group, world: World, i: nat, failed: set<string>)
    requires i < |g.ms| && forall x :: x in failed <==> Broken(g, world, i, x)
    ensures RequiresFailed(g.ms[i].dependencies, failed) <==>
      exists d <- g.ms[i].dependencies :: !d.optional && Broken(g, world, i, d.name)
  {
    var deps := g.ms[i].dependencies;
    if RequiresFailed(deps, failed) {
      var k :| 0 <= k < |deps| && !deps[k].optional && deps[k].name in failed;
      assert deps[k] in deps;
    }
  }

  lemma FailedIsNotProvided(g: Group, world: World, i: nat, x: string)
    requires i <= |g.ms| && Distinct(Names(g.ms))
    requires Broken(g, world, i, x)
    ensures !Provided(g, world, i, x)
  {
    var j :| 0 <= j < i && g.ms[j].name == x && !Fate(g, world, j).Built?;
    forall k | 0 <= k < i && g.ms[k].name == x ensures k == j {
      assert Names(g.ms)[k] == Names(g.ms)[j];
    }
  }

  lemma ProvidedOn(g: Group, world: World, i: nat, x: string)
    requires i < |g.ms|
    ensures Provided(g, world, i + 1, x) <==>
      Provided(g, world, i, x) || (x == g.ms[i].name && Fate(g, world, i) == Built(true))
  {
    if Provided(g, world, i + 1, x) {
      var j :| 0 <= j < i + 1 && g.ms[j].name == x && Fate(g, world, j) == Built(true);
      assert j < i || j == i;
    }
    if Provided(g, world, i, x) {
      var j :| 0 <= j < i && g.ms[j].name == x && Fate(g, world, j) == Built(true);
      assert 0 <= j < i + 1;
    }
  }

  lemma BrokenOn(g: Group, world: World, i: nat, x: string)
    requires i < |g.ms|
    ensures Broken(g, world, i + 1, x) <==>
      Broken(g, world, i, x) || (x == g.ms[i].name && !Fate(g, world, i).Built?)
  {
    if Broken(g, world, i + 1, x) {
      var j :| 0 <= j < i + 1 && g.ms[j].name == x && !Fate(g, world, j).Built?;
      assert j < i || j == i;
    }
    if Broken(g, world, i, x) {
      var j :| 0 <= j < i && g.ms[j].name == x && !Fate(g, world, j).Built?;
      assert 0 <= j < i + 1;
    }
  }

  lemma HasStateOn(g: Group, world: World, i: nat, x: string)
    requires i < |g.ms|
    ensures HasState(g, world, i + 1, x) <==>
      HasState(g, world, i, x) || (x == g.ms[i].name && Housed(g, world, i))
  {
    hide Housed;
  }

  lemma SpoiltOn(g: Group, world: World, i: nat, states: map<string, nat>, more: map<string, nat>, p: nat)
    requires i < |g.ms| && (forall a <- states :: a in more && more[a] == states[a])
    requires forall j :: 0 <= j < i && Fate(g, world, j) == Panicked ==> g.ms[j].name in states
    ensures Spoilt(g, world, i + 1, more, p) <==>
      || Spoilt(g, world, i, states, p)
      || (Fate(g, world, i) == Panicked && g.ms[i].name in more && more[g.ms[i].name] == p)
    ensures Spoilt(g, world, i, more, p) <==> Spoilt(g, world, i, states, p)
  {
    hide Fate;
  }

  lemma {:induction false} PanickedHaveStates(g: Group, world: World, i: nat, states: map<string, nat>)
    requires i <= |g.ms| && forall x :: x in states <==> HasState(g, world, i, x)
    ensures forall j :: 0 <= j < i && Fate(g, world, j) == Panicked ==> g.ms[j].name in states
  {
    forall j | 0 <= j < i && Fate(g, world, j) == Panicked ensures g.ms[j].name in states {
      PanickedHasState(g, world, j);
      assert Housed(g, world, j);
      assert HasState(g, world, i, g.ms[j].name);
    }
  }

  /** What one member does to the pool: it is placed if it can be, and poisons its state when it panics. */
  ghost predicate Took(m: Manifest, mode: IsolationMode, world: World, was: Pool, proxies: map<string, nat>,
                       failed: set<string>, built: Built, now: Pool)
  {
    && (forall a <- was.states :: a in now.states && now.states[a] == was.states[a])
    && now.states.Keys == StatesTo(m, mode, world, was.states.Keys, failed)
    && built == BuiltFor(m, mode, world, was.states.Keys, proxies, failed,
         m.name in now.states && now.states[m.name] in was.poisoned)
    && (built == NotBuilt || m.name in now.states)
    && now.poisoned == if built == Panicked then was.poisoned + {now.states[m.name]} else was.poisoned
  }

  lemma NothingPublished(name: string, surfaces: map<string, Surface>, proxies: map<string, nat>)
    ensures Published(NotBuilt, name, surfaces, surfaces, proxies, proxies)
    ensures PublishedTo(NotBuilt, name, proxies.Keys) == proxies.Keys
  {
  }

  lemma JoinableCreates(mode: IsolationMode, component: int, groupStates: map<int, nat>)
    ensures Joinable(mode, component, groupStates) ==> groupStates != map[]
  {
  }

  /** A member that isolation or a failed dependency keeps out leaves the pool as it is. */
  lemma TookNothing(m: Manifest, mode: IsolationMode, world: World, was: Pool, proxies: map<string, nat>,
                    failed: set<string>)
    ensures (mode == PerPlugin && m.dependencies != []) || RequiresFailed(m.dependencies, failed) ==>
      Took(m, mode, world, was, proxies, failed, NotBuilt, was)
  {
    assert m.name in was.states ==> was.states.Keys + {m.name} == was.states.Keys;
  }

  /** A member that gets as far as asking for a state is built in it, if it is sound and it can be wired. */
  lemma TookState(m: Manifest, mode: IsolationMode, world: World, was: Pool, proxies: map<string, nat>,
                  failed: set<string>, state: Option<nat>, placed: Pool)
    requires !(mode == PerPlugin && m.dependencies != []) && !RequiresFailed(m.dependencies, failed)
    requires state.Some? <==> m.name in was.states || world.creates
    requires placed.states == if state.Some? then was.states[m.name := state.value] else was.states
    requires m.name in was.states ==> placed.states == was.states
    requires placed.poisoned == was.poisoned
    ensures var wired := Wire(m.dependencies, proxies);
      if state.Some? && wired.Some? && state.value !in was.poisoned then
        var built := world.build(m.name, wired.value);
        Took(m, mode, world, was, proxies, failed, built,
          placed.(poisoned := if built == Panicked then was.poisoned + {state.value} else was.poisoned))
      else Took(m, mode, world, was, proxies, failed, NotBuilt, placed)
  {
    hide Wire;
    assert placed.states.Keys == StatesTo(m, mode, world, was.states.Keys, failed);
  }

  lemma TracksOn(g: Group, world: World, i: nat, outcomes: seq<Outcome>, proxies: map<string, nat>,
                 failed: set<string>, was: Pool, outcome: Outcome, built: Built, now: Pool)
    requires i < |g.ms| && Distinct(Names(g.ms))
    requires Tracks(g, world, i, outcomes, proxies.Keys, failed, was)
    requires SharesExactly(g, now.states) && NewAreSound(g, now.states)
    requires outcome.name == g.ms[i].name && (outcome.Loaded? <==> built.Built?)
    requires Took(g.ms[i], g.mode, world, was, proxies, failed, built, now)
    ensures Tracks(g, world, i + 1, outcomes + [outcome], PublishedTo(built, g.ms[i].name, proxies.Keys),
              if outcome.Failed? then failed + {outcome.name} else failed, now)
  {
    var name := g.ms[i].name;
    BuiltIsFate(g, world, i, outcomes, proxies, failed, was, built, now);
    PanickedHaveStates(g, world, i, was.states);
    var failed' := if outcome.Failed? then failed + {outcome.name} else failed;
    hide BuiltFor, GetsState, Fate, Housed, Provided, Broken, HasState, Poisoned, SharesExactly, Spoilt;
    forall x ensures x in PublishedTo(built, name, proxies.Keys) <==> Provided(g, world, i + 1, x) {
      ProvidedOn(g, world, i, x);
    }
    forall x ensures x in failed' <==> Broken(g, world, i + 1, x) {
      BrokenOn(g, world, i, x);
    }
    forall x ensures x in now.states <==> HasState(g, world, i + 1, x) {
      HasStateOn(g, world, i, x);
    }
    forall p ensures p in now.poisoned <==> Spoilt(g, world, i + 1, now.states, p) {
      SpoiltOn(g, world, i, was.states, now.states, p);
    }
  }

  lemma BuiltIsFate(g: Group, world: World, i: nat, outcomes: seq<Outcome>, proxies: map<string, nat>,
                    failed: set<string>, was: Pool, built: Built, now: Pool)
    requires i < |g.ms| && Distinct(Names(g.ms))
    requires Tracks(g, world, i, outcomes, proxies.Keys, failed, was)
    requires SharesExactly(g, now.states) && NewAreSound(g, now.states)
    requires Took(g.ms[i], g.mode, world, was, proxies, failed, built, now)
    ensures built == Fate(g, world, i)
    ensures GetsState(g.ms[i], g.mode, world, was.states.Keys, failed) <==> Housed(g, world, i)
  {
    var name := g.ms[i].name;
    GetsStateIff(g, world, i, failed, was);
    PanickedHaveStates(g, world, i, was.states);
    var spoilt := name in now.states && now.states[name] in was.poisoned;
    hide BuiltFor, Fate, Housed, Provided, Broken, HasState, Poisoned, SharesExactly, Spoilt, GetsState;
    if Housed(g, world, i) {
      forall p ensures p in was.poisoned <==> Spoilt(g, world, i, now.states, p) {
        SpoiltOn(g, world, i, was.states, now.states, p);
      }
      PoisonedIff(g, world, i, now.states, was.poisoned);
    }
    BuiltForMeetsFate(g, world, i, outcomes, proxies, failed, was, spoilt);
  }

  /** Everything the loop over the members keeps about its local tables. */
  ghost predicate Loading(g: Group, world: World, first: map<string, Surface>, i: nat, outcomes: seq<Outcome>,
                          proxies: map<string, nat>, failed: set<string>, now: Pool, surfaces: map<string, Surface>)
    requires i <= |g.ms|
  {
    && |outcomes| == i && (forall j :: 0 <= j < i ==> OutcomeFits(g.ms[j], outcomes[j], now.states))
    && Surfaced(first, proxies, surfaces)
    && (Distinct(Names(g.ms)) ==> Tracks(g, world, i, outcomes, proxies.Keys, failed, now))
  }

  lemma LoadStarts(g: Group, world: World, components: map<string, int>, surfaces: map<string, Surface>, next: nat)
    requires forall a <- g.pool.states :: g.pool.states[a] < next
    ensures Pooled(g.mode, components, g.pool.states, next, map[], g.pool.states, next)
    ensures Loading(g, world, surfaces, 0, [], map[], {}, g.pool, surfaces)
  {
    var proxies: map<string, nat> := map[];
    assert proxies.Keys == {};
  }

  lemma LoadingOn(g: Group, world: World, first: map<string, Surface>, i: nat, outcomes: seq<Outcome>,
                  proxies: map<string, nat>, failed: set<string>, was: Pool, surfaces: map<string, Surface>,
                  outcome: Outcome, built: Built, proxies': map<string, nat>, now: Pool,
                  surfaces': map<string, Surface>)
    requires i < |g.ms|
    requires Loading(g, world, first, i, outcomes, proxies, failed, was, surfaces)
    requires SharesExactly(g, now.states) && NewAreSound(g, now.states)
    requires outcome.name == g.ms[i].name && (outcome.Loaded? <==> built.Built?)
    requires Took(g.ms[i], g.mode, world, was, proxies, failed, built, now)
    requires proxies'.Keys == PublishedTo(built, g.ms[i].name, proxies.Keys)
    requires Published(built, g.ms[i].name, surfaces, surfaces', proxies, proxies')
    ensures Loading(g, world, first, i + 1, outcomes + [outcome], proxies',
              if outcome.Failed? then failed + {outcome.name} else failed, now, surfaces')
  {
    hide Tracks, Surfaced, Published, BuiltFor, GetsState, SharesExactly;
    SurfacedOn(built, g.ms[i].name, first, surfaces, surfaces', proxies, proxies');
    if Distinct(Names(g.ms)) {
      TracksOn(g, world, i, outcomes, proxies, failed, was, outcome, built, now);
    }
  }

  lemma Loads(g: Group, world: World, first: map<string, Surface>, outcomes: seq<Outcome>, proxies: map<string, nat>,
              failed: set<string>, now: Pool, surfaces: map<string, Surface>)
    requires Loading(g, world, first, |g.ms|, outcomes, proxies, failed, now, surfaces)
    ensures |outcomes| == |g.ms| && forall i :: 0 <= i < |g.ms| ==> OutcomeFits(g.ms[i], outcomes[i], now.states)
    ensures Surfaced(first, proxies, surfaces)
    ensures Distinct(Names(g.ms)) ==> Tracks(g, world, |g.ms|, outcomes, proxies.Keys, failed, now)
  {
  }

  ghost function PublishedTo(built: Built, name: string, proxies: set<string>): set<string> {
    if built == Built(true) then proxies + {name} else proxies
  }

  /** The outcome names its member, and a member that loaded has a state to run in. */
  ghost predicate OutcomeFits(m: Manifest, outcome: Outcome, states: map<string, nat>) {
    outcome.name == m.name && (outcome.Loaded? ==> m.name in states)
  }

  /** Exactly the plugins given a proxy have a new surface, behind that very proxy. */
  ghost predicate Surfaced(before: map<string, Surface>, proxies: map<string, nat>, after: map<string, Surface>) {
    && (forall a :: a in after <==> a in before || a in proxies)
    && (forall a <- after :: if a in proxies then after[a].proxy == proxies[a] else after[a] == before[a])
  }

  /** A plugin built with exports gained a surface, and its proxy is handed on; nothing else changed. */
  ghost predicate Published(built: Built, name: string, before: map<string, Surface>, after: map<string, Surface>,
                            proxies: map<string, nat>, proxies': map<string, nat>)
  {
    if built == Built(true) then
      name in after && after == before[name := after[name]] && proxies' == proxies[name := after[name].proxy]
    else after == before && proxies' == proxies
  }

  /** One surface may have been put in place, with a proxy and a table of its own. */
  ghost predicate Renewed(name: string, before: map<string, Surface>, after: map<string, Surface>, from: nat) {
    || after == before
    || (name in after && after == before[name := after[name]] && after[name].proxy != after[name].table &&
        from <= after[name].proxy && from <= after[name].table)
  }

  /** Every surface is as it was, or has a proxy and a table that were not there before and are nobody else's. */
  ghost predicate Anew(before: map<string, Surface>, after: map<string, Surface>, from: nat) {
    && (forall a <- after :: (a in before && after[a] == before[a]) || OwnFrom(after[a], from))
    && (forall a, b :: a in after && b in after && a != b && OwnFrom(after[a], from) && OwnFrom(after[b], from) ==>
          Apart(after[a], after[b]))
  }

  ghost predicate OwnFrom(s: Surface, from: nat) {
    s.proxy != s.table && from <= s.proxy && from <= s.table
  }

  ghost predicate Apart(s: Surface, t: Surface) {
    s.proxy != t.proxy && s.proxy != t.table && s.table != t.proxy && s.table != t.table
  }

  lemma AnewStarts(surfaces: map<string, Surface>, next: nat)
    requires forall a <- surfaces :: surfaces[a].proxy < next && surfaces[a].table < next
    ensures Anew(surfaces, surfaces, next)
  {
  }

  lemma AnewOn(first: map<string, Surface>, before: map<string, Surface>, after: map<string, Surface>, floor: nat,
               from: nat, name: string)
    requires Anew(first, before, floor) && Renewed(name, before, after, from) && floor <= from
    requires forall a <- before :: before[a].proxy < from && before[a].table < from
    ensures Anew(first, after, floor)
  {
  }

  lemma SurfacedOn(built: Built, name: string, first: map<string, Surface>, before: map<string, Surface>,
                   after: map<string, Surface>, proxies: map<string, nat>, proxies': map<string, nat>)
    requires Surfaced(first, proxies, before) && Published(built, name, before, after, proxies, proxies')
    ensures Surfaced(first, proxies', after)
  {
  }

  /** One member has a state after its turn. */
  ghost predicate GetsState(m: Manifest, mode: IsolationMode, world: World, recorded: set<string>,
                            failed: set<string>)
  {
    || m.name in recorded
    || ((mode == PerPlugin ==> m.dependencies == []) && !RequiresFailed(m.dependencies, failed) && world.creates)
  }

  ghost function StatesTo(m: Manifest, mode: IsolationMode, world: World, recorded: set<string>,
                          failed: set<string>): set<string>
  {
    if GetsState(m, mode, world, recorded, failed) then recorded + {m.name} else recorded
  }

  /** What one member comes to, given the proxies and failures so far, and whether its state is poisoned. */
  ghost function BuiltFor(m: Manifest, mode: IsolationMode, world: World, recorded: set<string>,
                          proxies: map<string, nat>, failed: set<string>, spoilt: bool): Built
  {
    if mode == PerPlugin && m.dependencies != [] then NotBuilt
    else if RequiresFailed(m.dependencies, failed) then NotBuilt
    else if !GetsState(m, mode, world, recorded, failed) then NotBuilt
    else
      match Wire(m.dependencies, proxies)
      case None => NotBuilt
      case Some(wired) => if spoilt then NotBuilt else world.build(m.name, wired)
  }

  // ---------------------------------------------------------------- what sharing amounts to

  /**
   * After the first load into a fresh backend, two members that were given states share one
   * exactly when isolation says so: always, never, or when a chain of declared dependencies
   * inside the group joins them.
   */
  lemma FirstLoadSharing(g: Group, after: map<string, nat>, i: nat, j: nat)
    requires Distinct(Names(g.ms)) && g.pool.states == map[] && SharesExactly(g, after)
    requires i < |g.ms| && j < |g.ms| && i != j && g.ms[i].name in after && g.ms[j].name in after
    ensures after[g.ms[i].name] == after[g.ms[j].name] <==>
      match g.mode
      case Shared => true
      case PerPlugin => false
      case PerGroup => Connected(Declared(g.ms), g.ms[i].name, g.ms[j].name)
  {
    DistinctPosition(g.ms, i);
    DistinctPosition(g.ms, j);
    ConnectedOverNames(g.ms, i, j);
  }

  /**
   * A later load never joins a state recorded before. So "every plugin runs in one shared
   * state" holds after a load in shared mode exactly when it held before, and the pool was
   * empty or the load has nothing to add to it.
   */
  lemma OneStateIff(g: Group, world: World, after: map<string, nat>)
    requires g.mode == Shared && SharesExactly(g, after)
    requires forall a :: a in after <==> HasState(g, world, |g.ms|, a)
    ensures (forall a, b :: a in after && b in after ==> after[a] == after[b]) <==>
      var before := g.pool.states;
      && (forall a, b :: a in before && b in before ==> before[a] == before[b])
      && (before == map[] || forall i :: 0 <= i < |g.ms| && Housed(g, world, i) ==> g.ms[i].name in before)
  {
    hide Housed;
    forall i | 0 <= i < |g.ms| && Housed(g, world, i) ensures g.ms[i].name in after {
      assert HasState(g, world, |g.ms|, g.ms[i].name);
    }
    if g.pool.states != map[] {
      var b :| b in g.pool.states;
      assert b in after;
    }
  }

  /**
   * A concrete pair of loads into one shared-mode backend whose members end up in two states,
   * contrary to the mode's description.
   */
  method SecondSharedLoadSplits() returns (first: nat, second: nat)
    ensures first != second
  {
    var backend := new LuaBackend(Shared);
    var a := Manifest("a", None, Lua, "init.lua", [], map[], map[], "plugins/a");
    var b := Manifest("b", None, Lua, "init.lua", [], map[], map[], "plugins/b");
    var world := World(true, true, (name, wired) => Built(false));
    assert Position([b])["b"] == 0;
    ghost var g := Group([a], Shared, backend.Now());
    var loadedA := backend.LoadGroup([a], world);
    assert Fate(g, world, 0) == Built(false);
    ghost var h := Group([b], Shared, backend.Now());
    assert loadedA[0].Loaded? && "a" in backend.states;
    assert "b" !in backend.states by {
      PositionKeys([a], "b");
      assert Names([a]) == ["a"];
    }
    assert backend.poisoned == {};
    var loadedB := backend.LoadGroup([b], world);
    assert Fate(h, world, 0) == Built(false);
    assert loadedB[0].Loaded? && "b" in backend.states;
    first, second := backend.states["a"], backend.states["b"];
  }
}
