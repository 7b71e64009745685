/** The registry: the loaded plugins and the name index over them, through every operation. */
module Registries {
  import opened Wrappers
  import opened Distinctness
  import opened Manifests
  import opened Failures
  import opened Signatures
  import opened Vetting
  import Resolution

  // ---------------------------------------------------------------- steps on the tables

  ghost predicate Holds(config: Config, list: Revocations, plugins: seq<LoadedPlugin>, index: map<string, int>) {
    Indexed(plugins, index) && AllSound(config, list, plugins)
  }

  lemma PushHolds(config: Config, list: Revocations, plugins: seq<LoadedPlugin>, index: map<string, int>,
                  p: LoadedPlugin)
    requires Holds(config, list, plugins, index) && Sound(config, list, p) && p.Name() !in index
    ensures Holds(config, list, plugins + [p], index[p.Name() := |plugins|])
  {
    IndexedPush(plugins, index, p);
  }

  /** What one group's outcomes have come to after some of them. */
  ghost predicate Admitted(base: seq<LoadedPlugin>, plugins: seq<LoadedPlugin>, loaded: seq<string>) {
    base <= plugins && PluginNames(plugins) == PluginNames(base) + loaded
  }

  lemma AdmittedOn(base: seq<LoadedPlugin>, plugins: seq<LoadedPlugin>, loaded: seq<string>, p: LoadedPlugin)
    requires Admitted(base, plugins, loaded)
    ensures Admitted(base, plugins + [p], loaded + [p.Name()])
  {
    assert PluginNames(plugins + [p]) == PluginNames(plugins) + [p.Name()];
  }

  /** Loaded and failed, with multiplicity. */
  ghost function Settled(loaded: seq<string>, tally: Tally): multiset<string> {
    multiset(loaded) + multiset(FailureNames(tally.failures))
  }

  lemma SettledMore(loaded: seq<string>, tally: Tally, name: string, dir: string, reason: FailureReason)
    requires tally.Valid()
    ensures Settled(loaded + [name], tally) == Settled(loaded, tally) + multiset{name}
    ensures Settled(loaded, tally.Record(name, dir, reason)) == Settled(loaded, tally) + multiset{name}
    ensures tally.Record(name, dir, reason).Valid()
  {
    tally.Recorded(name, dir, reason);
  }

  function Member(members: seq<ReadyItem>, name: string): (r: Option<ReadyItem>)
    ensures r.Some? <==> name in ItemNames(members)
    ensures r.Some? ==> r.value in members && r.value.manifest.name == name
  {
    if members == [] then None
    else
      var last := |members| - 1;
      assert ItemNames(members) == ItemNames(members[..last]) + [members[last].manifest.name];
      if members[last].manifest.name == name then Some(members[last]) else Member(members[..last], name)
  }

  function PluginFrom(item: ReadyItem, instance: Instance, granted: seq<string>): LoadedPlugin {
    LoadedPlugin(item.manifest, instance, granted, item.signer, item.digest)
  }

  /** What a plugin was made from. */
  function ItemOf(p: LoadedPlugin): ReadyItem {
    ReadyItem(p.manifest, p.instance.source, p.signer, p.digest)
  }

  /**
   * The plugin is this item, run as one of these outcomes reports: with the instance it hands over
   * and the grants it names, which are just those policy approved.
   */
  ghost predicate MadeFrom(config: Config, p: LoadedPlugin, item: ReadyItem, outcomes: seq<Outcome>) {
    && p.manifest == item.manifest && p.signer == item.signer && p.digest == item.digest
    && p.instance.source == item.entryBytes && p.granted == ApprovedNames(config, item.manifest, item.signer)
    && Loaded(item.manifest.name, p.instance, p.granted) in outcomes
  }

  /** Every plugin that has joined the vector was made from one of these items and outcomes. */
  ghost predicate Newcomers(config: Config, before: seq<LoadedPlugin>, after: seq<LoadedPlugin>,
                            items: seq<ReadyItem>, outcomes: seq<Outcome>)
  {
    && before <= after
    && forall i :: |before| <= i < |after| ==> exists item <- items :: MadeFrom(config, after[i], item, outcomes)
  }

  /** Every plugin that has joined the vector was made from a ready item, as its own backend answered. */
  ghost predicate Joiners(config: Config, backends: Backends, before: seq<LoadedPlugin>, after: seq<LoadedPlugin>,
                          ready: seq<ReadyItem>)
  {
    before <= after && forall i :: |before| <= i < |after| ==> Joins(config, backends, after[i], ready)
  }

  ghost predicate Joins(config: Config, backends: Backends, p: LoadedPlugin, ready: seq<ReadyItem>) {
    exists item <- ready :: MadeFrom(config, p, item, AnswersBy(backends, ready, item.manifest.pluginType))
  }

  /** What the backend of one type answers when handed the ready plugins of that type. */
  ghost function AnswersBy(backends: Backends, ready: seq<ReadyItem>, ty: PluginType): seq<Outcome> {
    if ty in backends then backends[ty].load(OfType(ready, ty)) else []
  }

  lemma NewcomersGrow(config: Config, before: seq<LoadedPlugin>, after: seq<LoadedPlugin>, items: seq<ReadyItem>,
                      outcomes: seq<Outcome>, p: LoadedPlugin, item: ReadyItem)
    requires Newcomers(config, before, after, items, outcomes)
    requires item in items && MadeFrom(config, p, item, outcomes)
    ensures Newcomers(config, before, after + [p], items, outcomes)
  {
    hide MadeFrom;
  }

  lemma NewcomersJoin(config: Config, backends: Backends, before: seq<LoadedPlugin>, mid: seq<LoadedPlugin>,
                      after: seq<LoadedPlugin>, ready: seq<ReadyItem>)
    requires Newcomers(config, before, mid, OfType(ready, Lua), AnswersBy(backends, ready, Lua))
    requires Newcomers(config, mid, after, OfType(ready, Wasm), AnswersBy(backends, ready, Wasm))
    ensures Joiners(config, backends, before, after, ready)
  {
    hide MadeFrom, AnswersBy;
    forall i | |before| <= i < |after| ensures Joins(config, backends, after[i], ready) {
      if i < |mid| {
        assert mid[i] == after[i];
        var item :| item in OfType(ready, Lua) && MadeFrom(config, mid[i], item, AnswersBy(backends, ready, Lua));
        assert item in ready && item.manifest.pluginType == Lua;
      } else {
        var p := after[i];
        var item :| item in OfType(ready, Wasm) && MadeFrom(config, after[i], item, AnswersBy(backends, ready, Wasm));
        assert item in ready && item.manifest.pluginType == Wasm;
      }
    }
  }

  lemma FaithfulIsSound(config: Config, list: Revocations, taken: set<string>, outcomes: seq<Outcome>, k: nat,
                        members: seq<ReadyItem>, item: ReadyItem)
    requires Faithful(outcomes, members, config) && k < |outcomes| && item in members &&
      Vetted(config, list, taken, item)
    requires outcomes[k].Loaded? && outcomes[k].name == item.manifest.name
    ensures Sound(config, list, PluginFrom(item, outcomes[k].instance, outcomes[k].granted))
    ensures MadeFrom(config, PluginFrom(item, outcomes[k].instance, outcomes[k].granted), item, outcomes)
  {
    var j :| 0 <= j < |members| && members[j] == item;
    assert Honest(outcomes[k], members[j], config);
  }

  /** The plugins a backend reports loaded, of those it was handed. */
  function LoadedAmong(outcomes: seq<Outcome>, members: seq<ReadyItem>): seq<string> {
    if outcomes == [] then []
    else
      var last := outcomes[|outcomes| - 1];
      var before := LoadedAmong(outcomes[..|outcomes| - 1], members);
      if last.Loaded? && last.name in ItemNames(members) then before + [last.name] else before
  }

  lemma LoadedAmongNext(outcomes: seq<Outcome>, members: seq<ReadyItem>, k: nat)
    requires k < |outcomes|
    ensures LoadedAmong(outcomes[..k + 1], members) == LoadedAmong(outcomes[..k], members) +
      if outcomes[k].Loaded? && outcomes[k].name in ItemNames(members) then [outcomes[k].name] else []
  {
    assert outcomes[..k + 1][..k] == outcomes[..k];
  }

  /** The failures that what a backend answers comes to: its own, and answers for plugins it was not handed. */
  function FailedAmong(outcomes: seq<Outcome>, members: seq<ReadyItem>): seq<LoadFailure> {
    if outcomes == [] then []
    else
      var last := outcomes[|outcomes| - 1];
      var before := FailedAmong(outcomes[..|outcomes| - 1], members);
      if last.Loaded? && last.name in ItemNames(members) then before
      else before + [LoadFailure(last.name, if last.Failed? then last.dir else "", FailureReason.Runtime)]
  }

  lemma FailedAmongNext(outcomes: seq<Outcome>, members: seq<ReadyItem>, k: nat, first: seq<LoadFailure>,
                        failures: seq<LoadFailure>)
    requires k < |outcomes| && failures == first + FailedAmong(outcomes[..k], members)
    ensures first + FailedAmong(outcomes[..k + 1], members) ==
      if outcomes[k].Loaded? && outcomes[k].name in ItemNames(members) then failures
      else failures + [LoadFailure(outcomes[k].name, if outcomes[k].Failed? then outcomes[k].dir else "",
        FailureReason.Runtime)]
  {
    assert outcomes[..k + 1][..k] == outcomes[..k];
  }

  function Backendless(members: seq<ReadyItem>): (failures: seq<LoadFailure>)
    ensures FailureNames(failures) == ItemNames(members)
  {
    seq(|members|, i requires 0 <= i < |members| =>
      LoadFailure(members[i].manifest.name, members[i].manifest.dir, NoBackend))
  }

  /** The failures the plugins of one type come to. */
  function FailuresBy(backends: Backends, members: seq<ReadyItem>, ty: PluginType): seq<LoadFailure> {
    if members == [] then []
    else if ty !in backends then Backendless(members)
    else FailedAmong(backends[ty].load(members), members)
  }

  /** What the plugins of one type come to: whatever their backend reports loaded, if there is one. */
  function LoadedBy(backends: Backends, members: seq<ReadyItem>, ty: PluginType): seq<string> {
    if members == [] || ty !in backends then [] else LoadedAmong(backends[ty].load(members), members)
  }

  /** One group being taken over: what it started from, and what the backend answered. */
  ghost predicate Admitting(config: Config, list: Revocations, taken: set<string>, members: seq<ReadyItem>,
                            outcomes: seq<Outcome>, k: nat, first: multiset<string>, loaded0: seq<string>,
                            base: seq<LoadedPlugin>,
                            plugins: seq<LoadedPlugin>, index: map<string, int>, loaded: seq<string>, tally: Tally)
    requires k <= |outcomes|
  {
    && Holds(config, list, plugins, index) && tally.Valid() && Admitted(base, plugins, loaded)
    && Settled(loaded, tally) == first + multiset(OutcomeNames(outcomes)[..k])
    && loaded == loaded0 + LoadedAmong(outcomes[..k], members)
    && forall x <- index :: x in taken || (x in ItemNames(members) && x in OutcomeNames(outcomes)[..k])
  }

  ghost predicate Offered(config: Config, list: Revocations, taken: set<string>, members: seq<ReadyItem>,
                          outcomes: seq<Outcome>)
  {
    Faithful(outcomes, members, config) && forall item <- members :: Vetted(config, list, taken, item)
  }

  lemma AdmittingStarts(config: Config, list: Revocations, members: seq<ReadyItem>, outcomes: seq<Outcome>,
                        loaded0: seq<string>, base: seq<LoadedPlugin>, plugins: seq<LoadedPlugin>,
                        index: map<string, int>, before: Tally)
    requires Holds(config, list, plugins, index) && before.Valid() && Admitted(base, plugins, loaded0)
    ensures Admitting(config, list, index.Keys, members, outcomes, 0, Settled(loaded0, before), loaded0, base, plugins,
              index, loaded0, before)
    ensures Newcomers(config, plugins, plugins, members, outcomes) && FailedAmong(outcomes[..0], members) == []
  {
  }

  lemma AdmitFailure(config: Config, list: Revocations, taken: set<string>, members: seq<ReadyItem>,
                     outcomes: seq<Outcome>, k: nat, first: multiset<string>, loaded0: seq<string>,
                     base: seq<LoadedPlugin>,
                     plugins: seq<LoadedPlugin>, index: map<string, int>, loaded: seq<string>, tally: Tally,
                     dir: string)
    requires k < |outcomes|
    requires Admitting(config, list, taken, members, outcomes, k, first, loaded0, base, plugins, index, loaded, tally)
    requires !(outcomes[k].Loaded? && outcomes[k].name in ItemNames(members))
    ensures Admitting(config, list, taken, members, outcomes, k + 1, first, loaded0, base, plugins, index, loaded,
              tally.Record(outcomes[k].name, dir, FailureReason.Runtime))
  {
    hide Holds, Admitted, LoadedAmong;
    var names := OutcomeNames(outcomes);
    LoadedAmongNext(outcomes, members, k);
    assert names[..k + 1] == names[..k] + [names[k]];
    SettledMore(loaded, tally, names[k], dir, FailureReason.Runtime);
  }

  lemma AdmitLoaded(config: Config, list: Revocations, taken: set<string>, members: seq<ReadyItem>,
                    outcomes: seq<Outcome>, k: nat, first: multiset<string>, loaded0: seq<string>,
                    base: seq<LoadedPlugin>,
                    plugins: seq<LoadedPlugin>, index: map<string, int>, loaded: seq<string>, tally: Tally,
                    item: ReadyItem)
    requires k < |outcomes| && Offered(config, list, taken, members, outcomes)
    requires Admitting(config, list, taken, members, outcomes, k, first, loaded0, base, plugins, index, loaded, tally)
    requires item in members && outcomes[k].Loaded? && item.manifest.name == outcomes[k].name
    ensures Admitting(config, list, taken, members, outcomes, k + 1, first, loaded0, base,
              plugins + [PluginFrom(item, outcomes[k].instance, outcomes[k].granted)],
              index[outcomes[k].name := |plugins|], loaded + [outcomes[k].name], tally)
    ensures MadeFrom(config, PluginFrom(item, outcomes[k].instance, outcomes[k].granted), item, outcomes)
  {
    hide MadeFrom, Sound, Vetted, Admitted, Settled, LoadedAmong, Holds;
    var names := OutcomeNames(outcomes);
    var p := PluginFrom(item, outcomes[k].instance, outcomes[k].granted);
    IsMember(members, item);
    LoadedAmongNext(outcomes, members, k);
    FaithfulIsSound(config, list, taken, outcomes, k, members, item);
    NotYetTaken(config, list, taken, members, outcomes, k, item);
    hide Faithful;
    PushHolds(config, list, plugins, index, p);
    AdmittedOn(base, plugins, loaded, p);
    assert names[..k + 1] == names[..k] + [names[k]];
    SettledMore(loaded, tally, names[k], "", FailureReason.Runtime);
  }

  lemma IsMember(members: seq<ReadyItem>, item: ReadyItem)
    requires item in members
    ensures item.manifest.name in ItemNames(members)
  {
    var j :| 0 <= j < |members| && members[j] == item;
    assert ItemNames(members)[j] == item.manifest.name;
  }

  lemma NotYetTaken(config: Config, list: Revocations, taken: set<string>, members: seq<ReadyItem>,
                    outcomes: seq<Outcome>, k: nat, item: ReadyItem)
    requires Faithful(outcomes, members, config) && k < |outcomes|
    requires item in members && Vetted(config, list, taken, item) && item.manifest.name == outcomes[k].name
    ensures outcomes[k].name !in taken && outcomes[k].name !in OutcomeNames(outcomes)[..k]
  {
  }

  /** What handing one type's plugins to its backend comes to. */
  ghost predicate Delivered(config: Config, list: Revocations, taken: set<string>, members: seq<ReadyItem>,
                            handled: seq<string>, first: multiset<string>, base: seq<LoadedPlugin>,
                            plugins: seq<LoadedPlugin>, index: map<string, int>, loaded: seq<string>, tally: Tally)
  {
    && Holds(config, list, plugins, index) && tally.Valid() && Admitted(base, plugins, loaded)
    && Settled(loaded, tally) == first + multiset(handled)
    && forall x <- index :: x in taken || x in ItemNames(members)
  }

  lemma AdmittingDelivers(config: Config, list: Revocations, taken: set<string>, members: seq<ReadyItem>,
                          outcomes: seq<Outcome>, first: multiset<string>, loaded0: seq<string>,
                          base: seq<LoadedPlugin>,
                          plugins: seq<LoadedPlugin>, index: map<string, int>, loaded: seq<string>, tally: Tally)
    requires Admitting(config, list, taken, members, outcomes, |outcomes|, first, loaded0, base, plugins, index,
      loaded, tally)
    ensures Delivered(config, list, taken, members, OutcomeNames(outcomes), first, base, plugins, index, loaded, tally)
    ensures loaded == loaded0 + LoadedAmong(outcomes, members)
  {
    assert outcomes[..|outcomes|] == outcomes;
    assert OutcomeNames(outcomes)[..|outcomes|] == OutcomeNames(outcomes);
  }

  /** Every member fails for want of a backend. */
  method FailAll(members: seq<ReadyItem>, before: Tally) returns (after: Tally)
    requires before.Valid()
    ensures after.Valid() && after.failures == before.failures + Backendless(members)
  {
    after := before;
    ghost var all := Backendless(members);
    for k := 0 to |members|
      invariant after.Valid() && after.failures == before.failures + all[..k]
    {
      assert all[..k + 1] == all[..k] + [all[k]];
      after.Recorded(members[k].manifest.name, members[k].manifest.dir, NoBackend);
      after := after.Record(members[k].manifest.name, members[k].manifest.dir, NoBackend);
    }
    assert all[..|all|] == all;
  }

  lemma FailingDelivers(config: Config, list: Revocations, members: seq<ReadyItem>, base: seq<LoadedPlugin>,
                        plugins: seq<LoadedPlugin>, index: map<string, int>, loaded: seq<string>, before: Tally,
                        after: Tally)
    requires Holds(config, list, plugins, index) && Admitted(base, plugins, loaded) && after.Valid()
    requires FailureNames(after.failures) == FailureNames(before.failures) + ItemNames(members)
    ensures Delivered(config, list, index.Keys, members, ItemNames(members), Settled(loaded, before), base, plugins,
              index, loaded, after)
  {
  }

  /** A name is gone exactly when it was taken before the load, or has settled since. */
  lemma GoneIff(config: Config, list: Revocations, base: seq<LoadedPlugin>, plugins: seq<LoadedPlugin>,
                index: map<string, int>, loaded: seq<string>, tally: Tally, x: string)
    requires Holds(config, list, plugins, index) && tally.Valid() && Admitted(base, plugins, loaded)
    ensures x in tally.failed + index.Keys <==> x in PluginNames(base) || x in Settled(loaded, tally)
  {
    IndexedDistinct(plugins, index);
    assert x in index <==> x in PluginNames(base) + loaded;
    assert x in tally.failed <==> x in FailureNames(tally.failures);
  }

  lemma ReadyAndFailed(config: Config, list: Revocations, taken: set<string>, sorted: seq<Manifest>, first: Tally,
                       ready: seq<ReadyItem>, screened: Tally, x: string)
    requires Distinct(Manifests.Names(sorted)) && Screened(config, list, taken, sorted, first, ready, screened)
    requires x in ItemNames(ready) && x in FailureNames(screened.failures)
    ensures x in Manifests.Names(sorted) && x in FailureNames(first.failures)
  {
    DistinctMultiset(Manifests.Names(sorted));
    var items, failed := multiset(ItemNames(ready)), multiset(FailureNames(screened.failures));
    var names, before := multiset(Manifests.Names(sorted)), multiset(FailureNames(first.failures));
    assert (items + failed)[x] == (names + before)[x];
    assert items[x] >= 1 && failed[x] >= 1 && names[x] <= 1;
    assert before[x] >= 1;
    ReadyIsSorted(config, list, taken, sorted, first, ready, screened, x);
  }

  lemma ReadyIsSorted(config: Config, list: Revocations, taken: set<string>, sorted: seq<Manifest>, first: Tally,
                      ready: seq<ReadyItem>, screened: Tally, x: string)
    requires Screened(config, list, taken, sorted, first, ready, screened) && x in ItemNames(ready)
    ensures x in Manifests.Names(sorted)
  {
    var before, after := FailureNames(first.failures), FailureNames(screened.failures);
    assert after == before + after[|before|..];
    assert multiset(after)[x] >= multiset(before)[x];
    assert (multiset(ItemNames(ready)) + multiset(after))[x] ==
      (multiset(Manifests.Names(sorted)) + multiset(before))[x];
    assert multiset(Manifests.Names(sorted))[x] >= 1;
  }

  lemma ReadyDistinct(config: Config, list: Revocations, taken: set<string>, sorted: seq<Manifest>, first: Tally,
                      ready: seq<ReadyItem>, screened: Tally)
    requires Distinct(Manifests.Names(sorted)) && Screened(config, list, taken, sorted, first, ready, screened)
    ensures Distinct(ItemNames(ready))
  {
    DistinctMultiset(Manifests.Names(sorted));
    var before, after := FailureNames(first.failures), FailureNames(screened.failures);
    assert after == before + after[|before|..];
    forall x ensures multiset(ItemNames(ready))[x] <= 1 {
      assert multiset(after)[x] >= multiset(before)[x];
      assert (multiset(ItemNames(ready)) + multiset(after))[x] ==
        (multiset(Manifests.Names(sorted)) + multiset(before))[x];
    }
    SingleCounts(ItemNames(ready));
  }

  lemma Balance(settled: multiset<string>, start: multiset<string>, lua: multiset<string>, wasm: multiset<string>,
                left: multiset<string>, dropped: multiset<string>, names: multiset<string>, total: multiset<string>)
    requires settled == start + lua + wasm && names == lua + wasm + left + dropped && names + start == total
    ensures settled + left + dropped == total
  {
    forall x ensures (settled + left + dropped)[x] == total[x] {
      assert (names + start)[x] == total[x];
      assert names[x] == lua[x] + wasm[x] + left[x] + dropped[x];
    }
  }

  /** What the screening and both deliveries have come to, with the names each backend reported on. */
  ghost predicate Delivery(config: Config, list: Revocations, taken: set<string>, sorted: seq<Manifest>, first: Tally,
                           ready: seq<ReadyItem>, screened: Tally, lua: seq<string>, wasm: seq<string>,
                           base: seq<LoadedPlugin>, plugins: seq<LoadedPlugin>, index: map<string, int>,
                           loaded: seq<string>, tally: Tally)
  {
    && Distinct(Manifests.Names(sorted)) && Screened(config, list, taken, sorted, first, ready, screened)
    && Handled(OfType(ready, Lua), lua) && Handled(OfType(ready, Wasm), wasm)
    && Holds(config, list, plugins, index) && tally.Valid() && Admitted(base, plugins, loaded)
    && Settled(loaded, tally) == multiset(FailureNames(screened.failures)) + multiset(lua) + multiset(wasm)
    && (forall x :: x in taken <==> x in PluginNames(base))
  }

  /** The report and the dropped names together are what was ordered and what had failed before. */
  lemma LoadAccounts(config: Config, list: Revocations, taken: set<string>, sorted: seq<Manifest>, first: Tally,
                     ready: seq<ReadyItem>, screened: Tally, lua: seq<string>, wasm: seq<string>,
                     base: seq<LoadedPlugin>, plugins: seq<LoadedPlugin>, index: map<string, int>,
                     loaded: seq<string>, tally: Tally, last: Tally)
    requires Delivery(config, list, taken, sorted, first, ready, screened, lua, wasm, base, plugins, index, loaded,
      tally)
    requires SweptTo(ItemNames(ready), tally.failed + index.Keys, tally, last)
    ensures var dropped := Unswept(ItemNames(ready), Members(lua) + Members(wasm), tally.failed + index.Keys);
      Settled(loaded, last) + multiset(dropped) ==
        multiset(Manifests.Names(sorted)) + multiset(FailureNames(first.failures))
  {
    hide Holds, Indexed, AllSound, Vetted;
    var names, gone := ItemNames(ready), tally.failed + index.Keys;
    var dropped := Unswept(names, Members(lua) + Members(wasm), gone);
    ReadyDistinct(config, list, taken, sorted, first, ready, screened);
    GroupsStandApart(ready);
    forall x | x in lua || x in wasm ensures x in gone {
      GoneIff(config, list, base, plugins, index, loaded, tally, x);
    }
    ReadySplit(names, lua, wasm, gone);
    var total := multiset(Manifests.Names(sorted)) + multiset(FailureNames(first.failures));
    Balance(Settled(loaded, tally), multiset(FailureNames(screened.failures)), multiset(lua), multiset(wasm),
      multiset(Left(names, gone)), multiset(dropped), multiset(names), total);
    assert Settled(loaded, last) == Settled(loaded, tally) + multiset(Left(names, gone));
  }

  /**
   * The sweep passes over a plugin nobody reported on exactly when its name was among the
   * failures before the screening began.
   */
  lemma UnsweptIff(config: Config, list: Revocations, taken: set<string>, sorted: seq<Manifest>, first: Tally,
                   ready: seq<ReadyItem>, screened: Tally, lua: seq<string>, wasm: seq<string>,
                   base: seq<LoadedPlugin>, plugins: seq<LoadedPlugin>, index: map<string, int>,
                   loaded: seq<string>, tally: Tally, x: string)
    requires Delivery(config, list, taken, sorted, first, ready, screened, lua, wasm, base, plugins, index, loaded,
      tally)
    ensures x in Unswept(ItemNames(ready), Members(lua) + Members(wasm), tally.failed + index.Keys) <==>
      x in ItemNames(ready) && x !in lua && x !in wasm && x in FailureNames(first.failures)
  {
    if x in ItemNames(ready) && x !in lua && x !in wasm {
      var i :| 0 <= i < |ready| && ItemNames(ready)[i] == x;
      assert ready[i] in ready && Vetted(config, list, taken, ready[i]);
      GoneIff(config, list, base, plugins, index, loaded, tally, x);
      assert x in tally.failed + index.Keys <==> x in FailureNames(screened.failures);
      if x in FailureNames(screened.failures) {
        ReadyAndFailed(config, list, taken, sorted, first, ready, screened, x);
      }
      assert FailureNames(first.failures) <= FailureNames(screened.failures);
    }
  }

  lemma ReadyForDelivery(config: Config, list: Revocations, taken: set<string>, found: seq<Manifest>,
                         sorted: seq<Manifest>,
                         orderFailures: seq<LoadFailure>, first: Tally, ready: seq<ReadyItem>, screened: Tally)
    requires Resolution.Accounted(found, sorted, orderFailures)
    requires Screened(config, list, taken, sorted, first, ready, screened)
    ensures Distinct(Manifests.Names(sorted)) && Distinct(ItemNames(ready))
    ensures forall ty :: Distinct(ItemNames(OfType(ready, ty)))
    ensures forall ty, item :: item in OfType(ready, ty) ==> Vetted(config, list, taken, item)
  {
    OrderConserves(found, sorted, orderFailures);
    ReadyDistinct(config, list, taken, sorted, first, ready, screened);
    GroupsStandApart(ready);
  }

  /** Loading the Lua plugins takes no name of a Wasm one. */
  lemma WasmStillVetted(config: Config, list: Revocations, taken: set<string>, ready: seq<ReadyItem>, now: set<string>)
    requires Distinct(ItemNames(ready))
    requires forall item :: item in OfType(ready, Wasm) ==> Vetted(config, list, taken, item)
    requires forall x <- now :: x in taken || x in ItemNames(OfType(ready, Lua))
    ensures forall item :: item in OfType(ready, Wasm) ==> Vetted(config, list, now, item)
  {
    GroupsStandApart(ready);
    forall item | item in OfType(ready, Wasm) ensures Vetted(config, list, now, item) {
      var k :| 0 <= k < |OfType(ready, Wasm)| && OfType(ready, Wasm)[k] == item;
      assert ItemNames(OfType(ready, Wasm))[k] == item.manifest.name;
    }
  }

  lemma Delivers(config: Config, list: Revocations, sorted: seq<Manifest>, first: Tally, ready: seq<ReadyItem>,
                 screened: Tally, lua: seq<string>, wasm: seq<string>, base: seq<LoadedPlugin>, taken: map<string, int>,
                 plugins: seq<LoadedPlugin>, index: map<string, int>, mid: Tally, midLoaded: seq<string>,
                 loaded: seq<string>, tally: Tally)
    requires Distinct(Manifests.Names(sorted)) && Screened(config, list, taken.Keys, sorted, first, ready, screened)
    requires Handled(OfType(ready, Lua), lua) && Handled(OfType(ready, Wasm), wasm) && Indexed(base, taken)
    requires Settled(midLoaded, mid) == Settled([], screened) + multiset(lua)
    requires Holds(config, list, plugins, index) && tally.Valid() && Admitted(base, plugins, loaded)
    requires Settled(loaded, tally) == Settled(midLoaded, mid) + multiset(wasm)
    ensures Delivery(config, list, taken.Keys, sorted, first, ready, screened, lua, wasm, base, plugins, index,
      loaded, tally)
  {
    IndexedDistinct(base, taken);
  }

  /** What the report of a load amounts to, with the names that were dropped. */
  ghost predicate Reports(report: LoadReport, found: seq<Manifest>, unreadable: seq<LoadFailure>,
                          dropped: set<string>)
  {
    && (Conserved(report, found, unreadable) <==>
        Distinct(Manifests.Names(Resolution.Passing(found))) && dropped == {})
    && (Distinct(Manifests.Names(found)) ==>
        forall x <- dropped :: x in Manifests.Names(found) && x in FailureNames(unreadable))
  }

  lemma LoadReports(config: Config, list: Revocations, taken: set<string>, found: seq<Manifest>,
                    unreadable: seq<LoadFailure>, backends: Backends,
                    sorted: seq<Manifest>, orderFailures: seq<LoadFailure>, first: Tally, ready: seq<ReadyItem>,
                    screened: Tally, lua: seq<string>, wasm: seq<string>, base: seq<LoadedPlugin>,
                    plugins: seq<LoadedPlugin>, index: map<string, int>, loaded: seq<string>, tally: Tally, last: Tally)
    requires Resolution.Accounted(found, sorted, orderFailures) && first.failures == unreadable + orderFailures
    requires Delivery(config, list, taken, sorted, first, ready, screened, lua, wasm, base, plugins, index, loaded,
      tally)
    requires lua == Reported(backends, OfType(ready, Lua), Lua) && wasm == Reported(backends, OfType(ready, Wasm), Wasm)
    requires SweptTo(ItemNames(ready), tally.failed + index.Keys, tally, last)
    ensures Reports(LoadReport(loaded, last.failures), found, unreadable, Dropped(backends, ready, first.failures))
  {
    hide Delivery, SweptTo, Unswept, Reported, Conserved, Resolution.Accounted;
    var unswept := Unswept(ItemNames(ready), Members(lua) + Members(wasm), tally.failed + index.Keys);
    var dropped := Dropped(backends, ready, first.failures);
    forall x ensures x in unswept <==> x in dropped {
      UnsweptIff(config, list, taken, sorted, first, ready, screened, lua, wasm, base, plugins, index, loaded, tally,
        x);
    }
    assert unswept == dropped;
    LoadAccounts(config, list, taken, sorted, first, ready, screened, lua, wasm, base, plugins, index, loaded, tally,
      last);
    LoadConserves(found, unreadable, sorted, orderFailures, dropped, LoadReport(loaded, last.failures));
    if Distinct(Manifests.Names(found)) {
      forall x <- dropped ensures x in Manifests.Names(found) && x in FailureNames(unreadable) {
        DeliveredIsSorted(config, list, taken, sorted, first, ready, screened, lua, wasm, base, plugins, index, loaded,
          tally, x);
        FailedBeforeOrder(found, unreadable, sorted, orderFailures, x);
      }
    }
  }

  lemma DeliveredIsSorted(config: Config, list: Revocations, taken: set<string>, sorted: seq<Manifest>, first: Tally,
                          ready: seq<ReadyItem>, screened: Tally, lua: seq<string>, wasm: seq<string>,
                          base: seq<LoadedPlugin>, plugins: seq<LoadedPlugin>, index: map<string, int>,
                          loaded: seq<string>, tally: Tally, x: string)
    requires Delivery(config, list, taken, sorted, first, ready, screened, lua, wasm, base, plugins, index, loaded,
      tally)
    requires x in ItemNames(ready)
    ensures x in Manifests.Names(sorted)
  {
    ReadyIsSorted(config, list, taken, sorted, first, ready, screened, x);
  }

  lemma FailedBeforeOrder(found: seq<Manifest>, unreadable: seq<LoadFailure>, sorted: seq<Manifest>,
                          orderFailures: seq<LoadFailure>, x: string)
    requires Resolution.Accounted(found, sorted, orderFailures) && Distinct(Manifests.Names(found))
    requires x in Manifests.Names(sorted) && x in FailureNames(unreadable + orderFailures)
    ensures x in Manifests.Names(found) && x in FailureNames(unreadable)
  {
    OrderedHaveNotFailed(found, sorted, orderFailures, x);
    SortedWasFound(found, sorted, orderFailures, x);
    assert FailureNames(unreadable + orderFailures) == FailureNames(unreadable) + FailureNames(orderFailures);
  }

  lemma SortedWasFound(found: seq<Manifest>, sorted: seq<Manifest>, failures: seq<LoadFailure>, x: string)
    requires Resolution.Accounted(found, sorted, failures) && x in Manifests.Names(sorted)
    ensures x in Manifests.Names(found)
  {
    assert x in Manifests.Names(sorted) + FailureNames(Resolution.Held(found, failures));
    var m := Resolution.PassingNamed(found, x);
  }

  /** How one load went: the order, what could not be ordered, and the plugins that were ready. */
  datatype LoadRun = LoadRun(sorted: seq<Manifest>, orderFailures: seq<LoadFailure>, ready: seq<ReadyItem>)

  /** The load follows the order, readies exactly what can be, and reports what the backends loaded of it. */
  ghost predicate Loads(config: Config, list: Revocations, taken: set<string>, disk: Disk, backends: Backends,
                        found: seq<Manifest>, unreadable: seq<LoadFailure>, run: LoadRun, report: LoadReport,
                        registered: set<string>)
  {
    var (passed, screened) := PassedUpTo(config, list, taken, disk, run.sorted,
      TallyOf(unreadable + run.orderFailures), |run.sorted|);
    && Resolution.Accounted(found, run.sorted, run.orderFailures)
    && (Resolution.Orderly(Resolution.Passing(found)) ==> Resolution.Resolved(found, run.sorted, run.orderFailures))
    && ItemManifests(run.ready) == passed
    && (forall item <- run.ready :: FoundItem(config, list, disk, item) && Vetted(config, list, taken, item))
    && report.loaded == LoadedBy(backends, OfType(run.ready, Lua), Lua) +
      LoadedBy(backends, OfType(run.ready, Wasm), Wasm)
    && unreadable + run.orderFailures <= report.failures
    && report.failures == SweptFrom(run.ready, registered, TallyOf(screened.failures +
         FailuresBy(backends, OfType(run.ready, Lua), Lua) + FailuresBy(backends, OfType(run.ready, Wasm), Wasm)),
         |run.ready|).failures
  }

  lemma FailuresInTurn(backends: Backends, ready: seq<ReadyItem>, first: seq<LoadFailure>, screened: Tally, mid: Tally,
                       tally: Tally)
    requires first <= screened.failures && tally.Valid()
    requires mid.failures == screened.failures + FailuresBy(backends, OfType(ready, Lua), Lua)
    requires tally.failures == mid.failures + FailuresBy(backends, OfType(ready, Wasm), Wasm)
    ensures first <= tally.failures
    ensures tally == TallyOf(screened.failures + FailuresBy(backends, OfType(ready, Lua), Lua) +
                             FailuresBy(backends, OfType(ready, Wasm), Wasm))
  {
  }

  function TallyOf(failures: seq<LoadFailure>): Tally {
    Tally(failures, Members(FailureNames(failures)))
  }

  /** A call that tells a backend to forget a plugin. */
  datatype Notice = Notice(pluginType: PluginType, name: string)

  function Notices(plugins: seq<LoadedPlugin>): (notices: seq<Notice>)
    ensures |notices| == |plugins|
  {
    seq(|plugins|, i requires 0 <= i < |plugins| => Notice(plugins[i].manifest.pluginType, plugins[i].Name()))
  }

  /** The registry's tables at one moment, and what its backends have been told to forget by then. */
  datatype Tables = Tables(
    plugins: seq<LoadedPlugin>, index: map<string, int>, revocations: Revocations, notices: seq<Notice>)

  /**
   * A load: nothing at all when the host's setup, the root or the rock tree could not be read.
   * Otherwise what loads is, type by type, what the backends report loaded of the plugins that
   * were ready, each made from what was found for it; and ready is whatever nothing stands in
   * the way of, in dependency order. The report's failures are the unreadable directories, what
   * could not be ordered, what was kept back, each for the first check it fails, what the
   * backends answered, and what they left out.
   */
  ghost predicate LoadStep(config: Config, before: Tables, found: Option<(seq<Manifest>, seq<LoadFailure>)>, disk: Disk,
                           backends: Backends, report: Option<LoadReport>, run: LoadRun, after: Tables)
  {
    && after.revocations == before.revocations && after.notices == before.notices
    && (report.None? <==> found.None?)
    && match (found, report)
       case (Some((manifests, unreadable)), Some(told)) =>
         && Admitted(before.plugins, after.plugins, told.loaded)
         && Joiners(config, backends, before.plugins, after.plugins, run.ready)
         && Loads(config, before.revocations, before.index.Keys, disk, backends, manifests, unreadable, run, told,
              after.index.Keys)
         && (Confined(backends) ==>
             Reports(told, manifests, unreadable, Dropped(backends, run.ready, unreadable + run.orderFailures)))
       case _ => after == before
  }

  lemma NothingAdmitted(plugins: seq<LoadedPlugin>)
    ensures Admitted(plugins, plugins, [])
  {
    assert PluginNames(plugins) + [] == PluginNames(plugins);
  }

  lemma ScreenedValid(config: Config, list: Revocations, taken: set<string>, sorted: seq<Manifest>, first: Tally,
                      ready: seq<ReadyItem>, screened: Tally)
    requires Screened(config, list, taken, sorted, first, ready, screened)
    ensures screened.Valid() && first.failures <= screened.failures
    ensures forall item <- ready :: Vetted(config, list, taken, item)
  {
  }

  /** A load accounts for every plugin found, once, when no name occurs twice among what it found. */
  lemma DistinctLoadConserves(report: LoadReport, found: seq<Manifest>, unreadable: seq<LoadFailure>,
                              dropped: set<string>)
    requires Reports(report, found, unreadable, dropped)
    requires Distinct(Manifests.Names(found))
    requires forall x :: x in Manifests.Names(found) ==> x !in FailureNames(unreadable)
    ensures Conserved(report, found, unreadable)
  {
    PassingDistinct(found);
    assert forall x :: x !in dropped;
  }

  /** No verifier, no lockfile, no revocations, and signatures optional. */
  ghost predicate Undemanding(config: Config, list: Revocations) {
    config.verifier.None? && config.lockfile.None? && !config.requireSignatures && list.None?
  }

  /** A runtime that answers nothing at all. */
  const SILENT: Backend := Backend(items => [], item => None)

  /**
   * A directory that could not be read bears the name of a plugin elsewhere that asks for nothing.
   * When the backend answers nothing, that plugin is ready, and then neither loads nor fails: it is
   * dropped, and its name is reported once where it was found twice.
   */
  lemma OmittedIsDropped(config: Config, disk: Disk, m: Manifest, lost: LoadFailure, run: LoadRun, report: LoadReport,
                         registered: set<string>)
    requires Undemanding(config, None) && m.dependencies == [] && m.rocks == map[] && disk.entry(m).Some?
    requires lost.name == m.name && lost.reason == UnreadableManifest
    requires Loads(config, None, {}, disk, map[m.pluginType := SILENT], [m], [lost], run, report, registered)
    requires Reports(report, [m], [lost], Dropped(map[m.pluginType := SILENT], run.ready, [lost] + run.orderFailures))
    ensures ItemManifests(run.ready) == [m] && report.loaded == []
    ensures Dropped(map[m.pluginType := SILENT], run.ready, [lost] + run.orderFailures) == {m.name}
    ensures !Conserved(report, [m], [lost])
  {
    hide Conserved;
    AloneRuns(config, disk, m, lost, run, report, registered);
    SilenceDrops(m, lost, run.ready);
    assert [lost] + [] == [lost];
  }

  lemma AloneRuns(config: Config, disk: Disk, m: Manifest, lost: LoadFailure, run: LoadRun, report: LoadReport,
                  registered: set<string>)
    requires Undemanding(config, None) && m.dependencies == [] && m.rocks == map[] && disk.entry(m).Some?
    requires Loads(config, None, {}, disk, map[m.pluginType := SILENT], [m], [lost], run, report, registered)
    ensures ItemManifests(run.ready) == [m] && run.orderFailures == [] && report.loaded == []
  {
    Resolution.AloneIsOrdered(m, run.sorted, run.orderFailures);
    var first := TallyOf([lost] + []);
    AloneIsReady(config, disk, m, first.failed);
    hide SweptFrom, FailuresBy, Obstacle, Admissible, FoundItem, Resolution.Accounted, Resolution.Resolved,
      Resolution.Orderly, OfType;
    assert PassedUpTo(config, None, {}, disk, [m], first, 0) == ([], first);
    assert PassedUpTo(config, None, {}, disk, [m], first, 1) == ([] + [[m][0]], first);
  }

  lemma SilenceDrops(m: Manifest, lost: LoadFailure, ready: seq<ReadyItem>)
    requires ItemManifests(ready) == [m] && lost.name == m.name
    ensures Dropped(map[m.pluginType := SILENT], ready, [lost]) == {m.name}
  {
    assert ready[0].manifest == ItemManifests(ready)[0];
    assert ready[..0] == [] && OfType([], Lua) == OfType([], Wasm) == [];
    assert ItemNames(ready) == [m.name] && FailureNames([lost]) == [m.name];
  }

  lemma AloneIsReady(config: Config, disk: Disk, m: Manifest, failed: set<string>)
    requires Undemanding(config, None) && m.dependencies == [] && m.rocks == map[] && disk.entry(m).Some?
    ensures Admissible(config, None, {}, failed, disk, m)
  {
    var item := ReadyItem(m, disk.entry(m).value, Signer.Unsigned, None);
    assert FoundItem(config, None, disk, item) && Vetted(config, None, {}, item);
  }

  // ---------------------------------------------------------------- removing plugins

  /** The plugins not named, in their order. */
  function Keeping(plugins: seq<LoadedPlugin>, gone: set<string>): seq<LoadedPlugin> {
    if plugins == [] then []
    else
      var last := |plugins| - 1;
      var kept := Keeping(plugins[..last], gone);
      if plugins[last].Name() in gone then kept else kept + [plugins[last]]
  }

  lemma {:induction false} KeepingMembers(plugins: seq<LoadedPlugin>, gone: set<string>, p: LoadedPlugin)
    ensures p in Keeping(plugins, gone) <==> p in plugins && p.Name() !in gone
  {
    if plugins != [] {
      var last := |plugins| - 1;
      assert plugins == plugins[..last] + [plugins[last]];
      KeepingMembers(plugins[..last], gone, p);
    }
  }

  lemma {:induction false} KeepingAll(plugins: seq<LoadedPlugin>, gone: set<string>)
    requires forall p <- plugins :: p.Name() !in gone
    ensures Keeping(plugins, gone) == plugins
  {
    if plugins != [] {
      var last := |plugins| - 1;
      assert plugins == plugins[..last] + [plugins[last]];
      KeepingAll(plugins[..last], gone);
    }
  }

  lemma {:induction false} KeepingDistinct(plugins: seq<LoadedPlugin>, gone: set<string>)
    requires Distinct(PluginNames(plugins))
    ensures Distinct(PluginNames(Keeping(plugins, gone)))
  {
    if plugins != [] {
      var last := |plugins| - 1;
      var kept := Keeping(plugins[..last], gone);
      LastStandsApart(plugins);
      KeepingDistinct(plugins[..last], gone);
      forall i | 0 <= i < |kept| ensures PluginNames(kept)[i] != plugins[last].Name() {
        KeepingMembers(plugins[..last], gone, kept[i]);
        assert kept[i] in kept;
      }
      assert PluginNames(kept + [plugins[last]]) == PluginNames(kept) + [plugins[last].Name()];
    }
  }

  /** Taking out one plugin is keeping everything but its name. */
  lemma {:induction false} KeepingOneLess(plugins: seq<LoadedPlugin>, k: nat)
    requires Distinct(PluginNames(plugins)) && k < |plugins|
    ensures plugins[..k] + plugins[k + 1..] == Keeping(plugins, {plugins[k].Name()})
  {
    var last, name := |plugins| - 1, plugins[k].Name();
    var rest := plugins[..last];
    LastStandsApart(plugins);
    hide Distinct, PluginNames;
    if k == last {
      KeepingAll(rest, {name});
    } else {
      assert rest[k] in rest && plugins[last].Name() != name;
      KeepingOneLess(rest, k);
      SkipBeforeLast(plugins, k);
    }
  }

  lemma SkipBeforeLast<T>(s: seq<T>, k: nat)
    requires k < |s| - 1
    ensures var last := |s| - 1; s[..k] + s[k + 1..] == (s[..last][..k] + s[..last][k + 1..]) + [s[last]]
  {
  }

  lemma LastStandsApart(plugins: seq<LoadedPlugin>)
    requires Distinct(PluginNames(plugins)) && plugins != []
    ensures Distinct(PluginNames(plugins[..|plugins| - 1]))
    ensures forall p <- plugins[..|plugins| - 1] :: p.Name() != plugins[|plugins| - 1].Name()
  {
    var last := |plugins| - 1;
    var rest := plugins[..last];
    assert PluginNames(rest) == PluginNames(plugins)[..last];
    forall p <- rest ensures p.Name() != plugins[last].Name() {
      var i :| 0 <= i < last && rest[i] == p;
      assert PluginNames(plugins)[i] != PluginNames(plugins)[last];
    }
  }

  lemma KeepingUnknown(plugins: seq<LoadedPlugin>, name: string)
    requires name !in PluginNames(plugins)
    ensures Keeping(plugins, {name}) == plugins
  {
    forall p <- plugins ensures p.Name() != name {
      var i :| 0 <= i < |plugins| && plugins[i] == p;
      assert PluginNames(plugins)[i] == p.Name();
    }
    KeepingAll(plugins, {name});
  }

  /** The name index over a vector, built anew. */
  method Reindex(plugins: seq<LoadedPlugin>) returns (index: map<string, int>)
    requires Distinct(PluginNames(plugins))
    ensures Indexed(plugins, index)
  {
    index := map[];
    for k := 0 to |plugins|
      invariant forall i :: 0 <= i < k ==> plugins[i].Name() in index && index[plugins[i].Name()] == i
      invariant forall x <- index :: 0 <= index[x] < k && plugins[index[x]].Name() == x
    {
      assert forall i :: 0 <= i < k ==> PluginNames(plugins)[i] != PluginNames(plugins)[k];
      index := index[plugins[k].Name() := k];
    }
  }

  /** A registry refuses this plugin under the new list, hashing its directory again if it must. */
  ghost predicate Refuses(config: Config, list: seq<Revocation>, disk: Disk, p: LoadedPlugin) {
    if p.digest.Some? || forall entry <- list :: entry.digest.None? then
      exists entry <- list :: Withdraws(entry, p.digest, p.signer)
    else
      var files := disk.files(p.manifest.dir);
      || (exists e <- files :: Unreadable(e))
      || exists entry <- list :: Withdraws(entry, Some(DigestNow(config, files)), p.signer)
  }

  ghost function Unrefused(config: Config, list: seq<Revocation>, disk: Disk, plugins: seq<LoadedPlugin>):
    seq<LoadedPlugin> {
    if plugins == [] then []
    else
      var last := |plugins| - 1;
      var rest := Unrefused(config, list, disk, plugins[..last]);
      if Refuses(config, list, disk, plugins[last]) then rest else rest + [plugins[last]]
  }

  ghost function RefusedOf(config: Config, list: seq<Revocation>, disk: Disk, plugins: seq<LoadedPlugin>):
    seq<LoadedPlugin> {
    if plugins == [] then []
    else
      var last := |plugins| - 1;
      var rest := RefusedOf(config, list, disk, plugins[..last]);
      if Refuses(config, list, disk, plugins[last]) then rest + [plugins[last]] else rest
  }

  lemma {:induction false} RefusedMembers(config: Config, list: seq<Revocation>, disk: Disk,
                                          plugins: seq<LoadedPlugin>, p: LoadedPlugin)
    ensures p in RefusedOf(config, list, disk, plugins) <==> p in plugins && Refuses(config, list, disk, p)
  {
    if plugins != [] {
      var last := |plugins| - 1;
      assert plugins == plugins[..last] + [plugins[last]];
      RefusedMembers(config, list, disk, plugins[..last], p);
    }
  }

  lemma {:induction false} KeepingIsUnrefused(config: Config, list: seq<Revocation>, disk: Disk,
                                              plugins: seq<LoadedPlugin>, gone: set<string>)
    requires forall p <- plugins :: p.Name() in gone <==> Refuses(config, list, disk, p)
    ensures Keeping(plugins, gone) == Unrefused(config, list, disk, plugins)
  {
    if plugins != [] {
      KeepingIsUnrefused(config, list, disk, plugins[..|plugins| - 1], gone);
    }
  }

  /** With distinct names, the names of the refused tell the refused from the rest. */
  lemma RefusedByName(config: Config, list: seq<Revocation>, disk: Disk, plugins: seq<LoadedPlugin>, p: LoadedPlugin)
    requires Distinct(PluginNames(plugins)) && p in plugins
    ensures p.Name() in PluginNames(RefusedOf(config, list, disk, plugins)) <==> Refuses(config, list, disk, p)
  {
    var refused := RefusedOf(config, list, disk, plugins);
    RefusedMembers(config, list, disk, plugins, p);
    if p in refused {
      var i :| 0 <= i < |refused| && refused[i] == p;
      assert PluginNames(refused)[i] == p.Name();
    }
    if p.Name() in PluginNames(refused) {
      var i :| 0 <= i < |refused| && PluginNames(refused)[i] == p.Name();
      RefusedMembers(config, list, disk, plugins, refused[i]);
      var j :| 0 <= j < |plugins| && plugins[j] == refused[i];
      var k :| 0 <= k < |plugins| && plugins[k] == p;
      assert PluginNames(plugins)[j] == PluginNames(plugins)[k];
    }
  }

  /** A plugin the new list does not refuse is sound under it. */
  lemma UnrefusedIsSound(config: Config, before: Revocations, list: seq<Revocation>, disk: Disk, p: LoadedPlugin)
    requires Sound(config, before, p) && !Refuses(config, list, disk, p)
    ensures Sound(config, Some(list), p)
  {
    RevokesIff(list, p.digest, p.signer);
    UnrefusedIsNotNamed(config, list, disk, p);
    hide Refuses, Withdraws, Revokes, Bound, GrantsWithin, Vouched, Folds;
  }

  lemma UnrefusedIsNotNamed(config: Config, list: seq<Revocation>, disk: Disk, p: LoadedPlugin)
    requires !Refuses(config, list, disk, p)
    ensures forall entry <- list :: !Withdraws(entry, p.digest, p.signer)
  {
    hide Denotes;
  }

  /** How a refused plugin is reported: a directory that can no longer be read is its own reason. */
  ghost function Withdrawal(config: Config, list: seq<Revocation>, disk: Disk, p: LoadedPlugin): LoadFailure {
    var unread := p.digest.None? && (exists entry <- list :: entry.digest.Some?) &&
      exists e <- disk.files(p.manifest.dir) :: Unreadable(e);
    LoadFailure(p.Name(), p.manifest.dir, if unread then FailureReason.Io else FailureReason.Revoked)
  }

  ghost function Withdrawals(config: Config, list: seq<Revocation>, disk: Disk, plugins: seq<LoadedPlugin>):
    (failures: seq<LoadFailure>)
    ensures FailureNames(failures) == PluginNames(plugins)
  {
    seq(|plugins|, i requires 0 <= i < |plugins| => Withdrawal(config, list, disk, plugins[i]))
  }

  method Judge(config: Config, list: seq<Revocation>, disk: Disk, p: LoadedPlugin) returns (r: Option<FailureReason>)
    requires list != []
    ensures r.Some? <==> Refuses(config, list, disk, p)
    ensures r.Some? ==> r.value == Withdrawal(config, list, disk, p).reason
  {
    var digest := p.digest;
    if digest.None? && NeedsDigest(list) {
      digest := Compute(disk.files(p.manifest.dir), config.sha);
      if digest.None? {
        return Some(FailureReason.Io);
      }
      assert digest.value == DigestNow(config, disk.files(p.manifest.dir));
    }
    RevokesIff(list, digest, p.signer);
    r := if Revokes(list, digest, p.signer) then Some(FailureReason.Revoked) else None;
  }

  /** One report for each plugin the list refuses, in load order. */
  method JudgeAll(config: Config, list: seq<Revocation>, disk: Disk, plugins: seq<LoadedPlugin>)
    returns (refused: seq<LoadFailure>)
    ensures refused == Withdrawals(config, list, disk, RefusedOf(config, list, disk, plugins))
  {
    refused := [];
    if list != [] {
      for k := 0 to |plugins|
        invariant refused == Withdrawals(config, list, disk, RefusedOf(config, list, disk, plugins[..k]))
      {
        hide Refuses, Withdrawal;
        assert plugins[..k + 1][..k] == plugins[..k];
        var reason := Judge(config, list, disk, plugins[k]);
        if reason.Some? {
          WithdrawalsOn(config, list, disk, RefusedOf(config, list, disk, plugins[..k]), plugins[k]);
          refused := refused + [LoadFailure(plugins[k].Name(), plugins[k].manifest.dir, reason.value)];
        }
      }
      assert plugins[..|plugins|] == plugins;
    } else {
      NothingRefused(config, list, disk, plugins);
    }
  }

  lemma WithdrawalsOn(config: Config, list: seq<Revocation>, disk: Disk, plugins: seq<LoadedPlugin>, p: LoadedPlugin)
    ensures Withdrawals(config, list, disk, plugins + [p]) ==
      Withdrawals(config, list, disk, plugins) + [LoadFailure(p.Name(), p.manifest.dir,
        Withdrawal(config, list, disk, p).reason)]
  {
  }

  lemma {:induction false} NothingRefused(config: Config, list: seq<Revocation>, disk: Disk, plugins: seq<LoadedPlugin>)
    requires list == []
    ensures RefusedOf(config, list, disk, plugins) == []
  {
    if plugins != [] {
      NothingRefused(config, list, disk, plugins[..|plugins| - 1]);
    }
  }

  lemma {:induction false} KeepingTwice(plugins: seq<LoadedPlugin>, gone: set<string>, name: string)
    ensures Keeping(Keeping(plugins, gone), {name}) == Keeping(plugins, gone + {name})
  {
    if plugins != [] {
      var last := |plugins| - 1;
      KeepingTwice(plugins[..last], gone, name);
      var kept := Keeping(plugins[..last], gone);
      assert (kept + [plugins[last]])[..|kept|] == kept;
    }
  }

  /** The plugin to go next is still there, and the only one of its name. */
  lemma OneToGo(before: seq<LoadedPlugin>, plugins: seq<LoadedPlugin>, index: map<string, int>, gone: seq<LoadedPlugin>,
                names: seq<string>, k: nat)
    requires Indexed(plugins, index) && names == PluginNames(gone) && Distinct(names) && k < |names|
    requires plugins == Keeping(before, Members(names[..k])) && gone[k] in before
    ensures names[k] in PluginNames(plugins)
    ensures forall p <- plugins :: p.Name() == names[k] ==> p == gone[k]
  {
    assert names[k] !in names[..k];
    KeepingMembers(before, Members(names[..k]), gone[k]);
    var i :| 0 <= i < |plugins| && plugins[i] == gone[k];
    assert PluginNames(plugins)[i] == names[k];
  }

  lemma OneGone(before: seq<LoadedPlugin>, was: Tables, gone: seq<LoadedPlugin>, names: seq<string>, k: nat,
                first: seq<Notice>, r: Option<LoadedPlugin>, now: Tables)
    requires Indexed(was.plugins, was.index) && names == PluginNames(gone) && Distinct(names) && k < |names|
    requires was.plugins == Keeping(before, Members(names[..k])) && forall p <- gone :: p in before
    requires was.notices == first + Notices(gone[..k]) && RemoveStep(was, names[k], r, now)
    ensures now.plugins == Keeping(before, Members(names[..k + 1]))
    ensures now.notices == first + Notices(gone[..k + 1])
  {
    OneToGo(before, was.plugins, was.index, gone, names, k);
    assert names[k] == gone[k].Name() && gone[k] in gone;
    NoticesOn(gone, k);
    MembersGrow(names, k);
    hide Indexed, Keeping, Distinct, PluginNames, Notices, Members;
    KeepingTwice(before, Members(names[..k]), names[k]);
    assert first + (Notices(gone[..k]) + Notices([gone[k]])) == (first + Notices(gone[..k])) + Notices([gone[k]]);
  }

  lemma NoticesOn(plugins: seq<LoadedPlugin>, k: nat)
    requires k < |plugins|
    ensures Notices(plugins[..k + 1]) == Notices(plugins[..k]) + Notices([plugins[k]])
  {
  }

  lemma {:induction false} RefusedDistinct(config: Config, list: seq<Revocation>, disk: Disk,
                                           plugins: seq<LoadedPlugin>)
    requires Distinct(PluginNames(plugins))
    ensures Distinct(PluginNames(RefusedOf(config, list, disk, plugins)))
  {
    if plugins != [] {
      var last := |plugins| - 1;
      var refused := RefusedOf(config, list, disk, plugins[..last]);
      LastStandsApart(plugins);
      RefusedDistinct(config, list, disk, plugins[..last]);
      forall i | 0 <= i < |refused| ensures PluginNames(refused)[i] != plugins[last].Name() {
        RefusedMembers(config, list, disk, plugins[..last], refused[i]);
        assert refused[i] in refused;
      }
      assert PluginNames(refused + [plugins[last]]) == PluginNames(refused) + [plugins[last].Name()];
    }
  }

  lemma RefusedAreLoaded(config: Config, list: seq<Revocation>, disk: Disk, plugins: seq<LoadedPlugin>,
                         index: map<string, int>)
    requires Indexed(plugins, index)
    ensures Distinct(PluginNames(RefusedOf(config, list, disk, plugins)))
    ensures forall p <- RefusedOf(config, list, disk, plugins) :: p in plugins
  {
    IndexedDistinct(plugins, index);
    RefusedDistinct(config, list, disk, plugins);
    forall p <- RefusedOf(config, list, disk, plugins) ensures p in plugins {
      RefusedMembers(config, list, disk, plugins, p);
    }
  }

  function Place(plugins: seq<LoadedPlugin>, index: map<string, int>, name: string): (k: nat)
    requires Indexed(plugins, index) && name in index
    ensures k < |plugins| && plugins[k].Name() == name
  {
    index[name]
  }

  /** Removing the refused by name leaves exactly the unrefused, each sound under the new list. */
  lemma RemainingAreSound(config: Config, was: Revocations, list: seq<Revocation>, disk: Disk,
                          before: seq<LoadedPlugin>,
                          index: map<string, int>, names: seq<string>)
    requires Holds(config, was, before, index) && names == PluginNames(RefusedOf(config, list, disk, before))
    ensures Keeping(before, Members(names)) == Unrefused(config, list, disk, before)
    ensures AllSound(config, Some(list), Keeping(before, Members(names)))
  {
    hide Sound, Refuses;
    IndexedDistinct(before, index);
    forall p <- before ensures p.Name() in Members(names) <==> Refuses(config, list, disk, p) {
      RefusedByName(config, list, disk, before, p);
    }
    KeepingIsUnrefused(config, list, disk, before, Members(names));
    forall p <- Keeping(before, Members(names)) ensures Sound(config, Some(list), p) {
      KeepingMembers(before, Members(names), p);
      UnrefusedIsSound(config, was, list, disk, p);
    }
  }

  datatype ReloadError = UnknownPlugin | NotReloaded(reason: FailureReason)

  /** A plugin can be read again from its directory: same name and type, verified, bound, and built. */
  ghost predicate Reloadable(config: Config, list: Revocations, before: Manifest, disk: Disk, backends: Backends) {
    && disk.manifest(before.dir).Some?
    && var m := disk.manifest(before.dir).value;
       && m.name == before.name && m.pluginType == before.pluginType && disk.validates(m) && m.pluginType in backends
       && exists item: ReadyItem ::
            item.manifest == m && FoundItem(config, list, disk, item) && Vetted(config, list, {}, item) &&
            backends[m.pluginType].reload(item).Some?
  }

  /** The plugin runs what its backend made anew of its manifest and bytes, with the grants approved for it. */
  ghost predicate Rebuilt(config: Config, backends: Backends, p: LoadedPlugin) {
    && p.manifest.pluginType in backends && p.granted == ApprovedNames(config, p.manifest, p.signer)
    && backends[p.manifest.pluginType].reload(ReadyItem(p.manifest, p.instance.source, p.signer, p.digest)) ==
      Some(Reloaded(p.instance, p.granted))
  }

  /** The reason a plugin that cannot be reloaded is reported for: the first check it fails. */
  ghost function Hindrance(config: Config, list: Revocations, before: Manifest, disk: Disk, backends: Backends):
    FailureReason
  {
    match disk.manifest(before.dir)
    case None => UnreadableManifest
    case Some(m) =>
      if m.name != before.name || m.pluginType != before.pluginType || !disk.validates(m) then UnreadableManifest
      else if forall item: ReadyItem ::
        item.manifest == m && FoundItem(config, list, disk, item) ==> !Vetted(config, list, {}, item) then
        Refusal(config, list, disk, m)
      else if m.pluginType !in backends then NoBackend
      else FailureReason.Runtime
  }

  /** Reads, verifies, binds and builds one plugin anew. */
  method Rebuild(config: Config, list: Revocations, before: Manifest, disk: Disk, backends: Backends)
    returns (r: Result<LoadedPlugin, FailureReason>)
    requires FaithfulReloads(backends, config)
    ensures r.Ok? <==> Reloadable(config, list, before, disk, backends)
    ensures r.Ok? ==> Sound(config, list, r.value) && r.value.Name() == before.name
    ensures r.Ok? ==>
      r.value.manifest.pluginType == before.pluginType && disk.manifest(before.dir) == Some(r.value.manifest)
    ensures r.Ok? ==> FoundItem(config, list, disk, ItemOf(r.value)) && Rebuilt(config, backends, r.value)
    ensures r.Err? ==> r.error == Hindrance(config, list, before, disk, backends)
  {
    hide Vetted, Sound, Found, Refusal;
    var manifest := disk.manifest(before.dir);
    if manifest.None? {
      return Err(UnreadableManifest);
    }
    var m := manifest.value;
    if m.name != before.name || m.pluginType != before.pluginType || !disk.validates(m) {
      return Err(UnreadableManifest);
    }
    var item := Reexamine(config, list, m, disk);
    if item.Err? {
      return Err(item.error);
    }
    if m.pluginType !in backends {
      return Err(NoBackend);
    }
    var answer := backends[m.pluginType].reload(item.value);
    if answer.None? {
      return Err(FailureReason.Runtime);
    }
    FaithfulReloadIsSound(config, list, backends[m.pluginType].reload, item.value);
    r := Ok(PluginFrom(item.value, answer.value.instance, answer.value.granted));
  }

  lemma FaithfulReloadIsSound(config: Config, list: Revocations, answer: ReadyItem -> Option<Reloaded>, item: ReadyItem)
    requires FaithfulReload(answer, config) && Vetted(config, list, {}, item) && answer(item).Some?
    ensures Sound(config, list, PluginFrom(item, answer(item).value.instance, answer(item).value.granted))
    ensures answer(item).value.instance.source == item.entryBytes
  {
  }

  ghost predicate FaithfulReloads(backends: Backends, config: Config) {
    forall ty <- backends :: FaithfulReload(backends[ty].reload, config)
  }

  /** The plugin in one slot was read again from its directory; every other slot is as it was. */
  ghost predicate Reloads(config: Config, list: Revocations, name: string, before: seq<LoadedPlugin>, k: int,
                          after: seq<LoadedPlugin>, disk: Disk, backends: Backends)
  {
    && 0 <= k < |before| && before[k].Name() == name && |after| == |before|
    && (forall i :: 0 <= i < |before| && i != k ==> after[i] == before[i])
    && after[k].Name() == name && after[k].manifest.pluginType == before[k].manifest.pluginType
    && disk.manifest(before[k].manifest.dir) == Some(after[k].manifest)
    && FoundItem(config, list, disk, ItemOf(after[k])) && Sound(config, list, after[k])
    && Rebuilt(config, backends, after[k])
  }

  /** One occurrence of the capability is gone from one plugin's grants, or there was none. */
  ghost predicate Unbound(capability: string, held: bool, before: seq<LoadedPlugin>, k: int,
                          after: seq<LoadedPlugin>, r: bool)
  {
    && 0 <= k < |before|
    && if capability !in before[k].granted then after == before && !r
       else
         && r == held && |after| == |before|
         && (forall i :: 0 <= i < |before| && i != k ==> after[i] == before[i])
         && after[k] == before[k].(granted := after[k].granted)
         && multiset(before[k].granted) == multiset(after[k].granted) + multiset{capability}
         && WithoutFirst(before[k].granted, capability, after[k].granted)
  }

  /** Exactly the first occurrence of `x` is gone. */
  ghost predicate WithoutFirst(before: seq<string>, x: string, after: seq<string>) {
    exists i :: 0 <= i < |before| && before[i] == x && x !in before[..i] && after == before[..i] + before[i + 1..]
  }

  /** A plugin takes its own slot exactly when it can be read again; otherwise nothing changes. */
  ghost predicate ReloadStep(config: Config, before: Tables, name: string, disk: Disk, backends: Backends,
                             r: Option<ReloadError>, after: Tables)
  {
    && after.index == before.index && after.revocations == before.revocations && after.notices == before.notices
    && (r.Some? ==> after.plugins == before.plugins)
    && (r == Some(UnknownPlugin) <==> name !in PluginNames(before.plugins))
    && (r.Some? && r != Some(UnknownPlugin) ==>
        name in before.index && 0 <= before.index[name] < |before.plugins| &&
        r == Some(NotReloaded(
          Hindrance(config, before.revocations, before.plugins[before.index[name]].manifest, disk, backends))))
    && (r.None? <==>
        name in before.index && 0 <= before.index[name] < |before.plugins| &&
        Reloadable(config, before.revocations, before.plugins[before.index[name]].manifest, disk, backends))
    && (r.None? ==>
        name in before.index &&
        Reloads(config, before.revocations, name, before.plugins, before.index[name], after.plugins, disk,
          backends))
  }

  lemma ReloadUnknown(config: Config, before: Tables, name: string, disk: Disk, backends: Backends)
    requires name !in before.index && name !in PluginNames(before.plugins)
    ensures ReloadStep(config, before, name, disk, backends, Some(UnknownPlugin), before)
  {
  }

  lemma ReloadFails(config: Config, before: Tables, name: string, disk: Disk, backends: Backends,
                    reason: FailureReason)
    requires Indexed(before.plugins, before.index) && name in before.index && name in PluginNames(before.plugins)
    requires var m := before.plugins[before.index[name]].manifest;
      && !Reloadable(config, before.revocations, m, disk, backends)
      && reason == Hindrance(config, before.revocations, m, disk, backends)
    ensures ReloadStep(config, before, name, disk, backends, Some(NotReloaded(reason)), before)
  {
    hide Reloadable, Hindrance;
  }

  lemma ReloadTakes(config: Config, before: Tables, name: string, disk: Disk, backends: Backends, p: LoadedPlugin)
    requires Indexed(before.plugins, before.index) && name in before.index && name in PluginNames(before.plugins)
    requires var m := before.plugins[before.index[name]].manifest;
      && Reloadable(config, before.revocations, m, disk, backends) && disk.manifest(m.dir) == Some(p.manifest)
      && p.Name() == name && p.manifest.pluginType == m.pluginType
    requires Sound(config, before.revocations, p) && Rebuilt(config, backends, p)
    requires FoundItem(config, before.revocations, disk, ItemOf(p))
    ensures ReloadStep(config, before, name, disk, backends, None,
              before.(plugins := before.plugins[before.index[name] := p]))
  {
    hide Reloadable, Hindrance, Sound, Rebuilt, FoundItem;
  }

  /** Exactly the plugin named is gone, its backend has been told, and it is handed back. */
  ghost predicate RemoveStep(before: Tables, name: string, r: Option<LoadedPlugin>, after: Tables) {
    && after.revocations == before.revocations && after.plugins == Keeping(before.plugins, {name})
    && (r.None? <==> name !in PluginNames(before.plugins))
    && (r.Some? ==> r.value in before.plugins && r.value.Name() == name)
    && after.notices == before.notices + if r.Some? then Notices([r.value]) else []
  }

  /** One grant of one plugin goes, if it was there; nothing else changes. */
  ghost predicate RevokeStep(before: Tables, name: string, capability: string, held: bool, r: Option<bool>,
                             after: Tables)
  {
    && after.index == before.index && after.revocations == before.revocations && after.notices == before.notices
    && (r.None? <==> name !in PluginNames(before.plugins))
    && (r.None? ==> after.plugins == before.plugins)
    && (r.Some? ==>
        name in before.index &&
        Unbound(capability, held, before.plugins, before.index[name], after.plugins, r.value))
  }

  /** The new list is in force, and exactly what it refuses is gone, forgotten and reported, in order. */
  ghost predicate WithdrawStep(config: Config, before: Tables, list: seq<Revocation>, disk: Disk,
                               refused: seq<LoadFailure>,
                               after: Tables)
  {
    && after.revocations == Some(list) && after.plugins == Unrefused(config, list, disk, before.plugins)
    && refused == Withdrawals(config, list, disk, RefusedOf(config, list, disk, before.plugins))
    && after.notices == before.notices + Notices(RefusedOf(config, list, disk, before.plugins))
  }

  lemma ReplaceHolds(config: Config, list: Revocations, plugins: seq<LoadedPlugin>, index: map<string, int>, k: nat,
                     p: LoadedPlugin)
    requires Holds(config, list, plugins, index) && k < |plugins| && p.Name() == plugins[k].Name() &&
      Sound(config, list, p)
    ensures Holds(config, list, plugins[k := p], index)
  {
    hide Sound;
    var after := plugins[k := p];
    forall i | 0 <= i < |after| ensures after[i].Name() == plugins[i].Name() && Sound(config, list, after[i]) {
      assert plugins[i] in plugins;
    }
  }

  lemma UngrantedIsSound(config: Config, list: Revocations, p: LoadedPlugin, k: nat)
    requires Sound(config, list, p) && k < |p.granted|
    ensures Sound(config, list, p.(granted := p.granted[..k] + p.granted[k + 1..]))
    ensures multiset(p.granted) == multiset(p.granted[..k] + p.granted[k + 1..]) + multiset{p.granted[k]}
  {
    hide Cleared, Bound, ApprovedNames;
    var rest := p.granted[..k] + p.granted[k + 1..];
    assert p.granted == p.granted[..k] + [p.granted[k]] + p.granted[k + 1..];
    forall c <- rest ensures c in p.granted {
      var i :| 0 <= i < |rest| && rest[i] == c;
      assert c == if i < k then p.granted[i] else p.granted[i + 1];
    }
  }

  lemma FirstIsGone(s: seq<string>, k: nat)
    requires k < |s| && s[k] !in s[..k]
    ensures WithoutFirst(s, s[k], s[..k] + s[k + 1..])
  {
  }

  /** Where an element first occurs; the length when it does not. */
  function FirstOf(s: seq<string>, x: string): (k: nat)
    ensures k <= |s| && (k < |s| <==> x in s) && (k < |s| ==> s[k] == x && x !in s[..k])
  {
    if s == [] then 0
    else if s[0] == x then 0
    else
      var k := FirstOf(s[1..], x);
      assert s == [s[0]] + s[1..] && s[..k + 1] == [s[0]] + s[1..][..k];
      k + 1
  }

  // ---------------------------------------------------------------- the registry

  class Registry {
    const config: Config
    var plugins: seq<LoadedPlugin>
    var index: map<string, int>
    var revocations: Revocations
    var notices: seq<Notice>

    ghost predicate Valid()
      reads this
    {
      Holds(config, revocations, plugins, index)
    }

    ghost function Now(): Tables
      reads this
    {
      Tables(plugins, index, revocations, notices)
    }

    constructor (config: Config, revocations: Revocations)
      ensures Valid() && this.config == config && Now() == Tables([], map[], revocations, [])
    {
      this.config, this.revocations, plugins, index, notices := config, revocations, [], map[], [];
    }

    /** The plugin under a name is the one a search of the vector would find. */
    method Get(name: string) returns (r: Option<LoadedPlugin>)
      requires Valid()
      ensures r.None? <==> forall p <- plugins :: p.Name() != name
      ensures r.Some? ==> r.value in plugins && forall p <- plugins :: p.Name() == name ==> p == r.value
    {
      if name in index {
        r := Some(plugins[index[name]]);
      } else {
        r := None;
      }
    }

    /** Takes over one group's outcomes: what loaded joins the vector and the index. */
    method Admit(members: seq<ReadyItem>, outcomes: seq<Outcome>, loaded0: seq<string>, before: Tally,
                 ghost base: seq<LoadedPlugin>)
      returns (loaded: seq<string>, after: Tally)
      requires Valid() && before.Valid() && Admitted(base, plugins, loaded0)
      requires Offered(config, revocations, index.Keys, members, outcomes)
      modifies this`plugins, this`index
      ensures Admitting(config, revocations, old(index.Keys), members, outcomes, |outcomes|, Settled(loaded0, before),
                loaded0, base, plugins, index, loaded, after)
      ensures Newcomers(config, old(plugins), plugins, members, outcomes)
      ensures after.failures == before.failures + FailedAmong(outcomes, members)
    {
      hide Holds, Admitted, Settled, Admitting, Offered, Newcomers, MadeFrom, FailedAmong;
      loaded, after := loaded0, before;
      ghost var start, taken, first := plugins, index.Keys, Settled(loaded0, before);
      AdmittingStarts(config, revocations, members, outcomes, loaded0, base, plugins, index, before);
      for k := 0 to |outcomes|
        invariant Admitting(config, revocations, taken, members, outcomes, k, first, loaded0, base, plugins, index,
          loaded, after)
        invariant Newcomers(config, start, plugins, members, outcomes)
        invariant after.failures == before.failures + FailedAmong(outcomes[..k], members)
      {
        FailedAmongNext(outcomes, members, k, before.failures, after.failures);
        var outcome := outcomes[k];
        var item := Member(members, outcome.name);
        if outcome.Loaded? && item.Some? {
          AdmitLoaded(config, revocations, taken, members, outcomes, k, first, loaded0, base, plugins, index, loaded,
            after, item.value);
          NewcomersGrow(config, start, plugins, members, outcomes,
            PluginFrom(item.value, outcome.instance, outcome.granted), item.value);
          loaded := loaded + [outcome.name];
          index := index[outcome.name := |plugins|];
          plugins := plugins + [PluginFrom(item.value, outcome.instance, outcome.granted)];
        } else {
          // A failure, or an outcome for a plugin the backend was never handed.
          var dir := if outcome.Failed? then outcome.dir else "";
          AdmitFailure(config, revocations, taken, members, outcomes, k, first, loaded0, base, plugins, index, loaded,
            after, dir);
          after := after.Record(outcome.name, dir, FailureReason.Runtime);
        }
      }
      assert outcomes[..|outcomes|] == outcomes;
    }

    /** Hands the plugins of one type to their backend, or fails them for want of one. */
    method Deliver(members: seq<ReadyItem>, ty: PluginType, backends: Backends, loaded0: seq<string>, before: Tally,
                   ghost base: seq<LoadedPlugin>)
      returns (loaded: seq<string>, after: Tally)
      requires Valid() && before.Valid() && Admitted(base, plugins, loaded0)
      requires FaithfulBackends(backends, config) && Distinct(ItemNames(members))
      requires forall item <- members :: Vetted(config, revocations, index.Keys, item)
      modifies this`plugins, this`index
      ensures Delivered(config, revocations, old(index.Keys), members, Reported(backends, members, ty),
                Settled(loaded0, before), base, plugins, index, loaded, after)
      ensures Confined(backends) ==> Handled(members, Reported(backends, members, ty))
      ensures loaded == loaded0 + LoadedBy(backends, members, ty)
      ensures after.failures == before.failures + FailuresBy(backends, members, ty)
      ensures Newcomers(config, old(plugins), plugins, members,
                if ty in backends then backends[ty].load(members) else [])
    {
      hide LoadedAmong, FailedAmong, MadeFrom;
      if members == [] {
        loaded, after := loaded0, before;
      } else if ty !in backends {
        loaded := loaded0;
        after := FailAll(members, before);
        assert FailureNames(after.failures) == FailureNames(before.failures) + ItemNames(members);
        FailingDelivers(config, revocations, members, base, plugins, index, loaded, before, after);
      } else {
        var outcomes := backends[ty].load(members);
        assert Faithful(outcomes, members, config);
        ghost var taken := index.Keys;
        loaded, after := Admit(members, outcomes, loaded0, before, base);
        AdmittingDelivers(config, revocations, taken, members, outcomes, Settled(loaded0, before), loaded0, base,
          plugins, index, loaded, after);
      }
    }

    /** Discovers, verifies and loads every plugin under a root. */
    method LoadDir(found: Option<(seq<Manifest>, seq<LoadFailure>)>, disk: Disk, backends: Backends)
      returns (report: Option<LoadReport>, ghost run: LoadRun)
      requires Valid() && FaithfulBackends(backends, config)
      modifies this`plugins, this`index
      ensures Valid()
      ensures LoadStep(config, old(Now()), found, disk, backends, report, run, Now())
    {
      hide Admitted, Screened, Settled, Faithful, Confined, Vetted, Reports, Resolution.Accounted, Resolution.Resolved,
        Resolution.Orderly, Resolution.Passing, Handled, SweptTo, Indexed, AllSound, LoadedBy, FoundItem, PassedUpTo,
        OfType, Dropped, Reported, Newcomers, Joiners, MadeFrom, FailuresBy, SweptFrom;
      if found.None? {
        return None, LoadRun([], [], []);
      }
      var manifests, unreadable := found.value.0, found.value.1;
      ghost var base, taken := plugins, index;
      var sorted, orderFailures := Resolution.ResolveOrder(manifests);
      var failures := unreadable + orderFailures;
      var first := TallyOf(failures);
      var ready, screened := Screen(config, revocations, index.Keys, sorted, first, disk);
      ReadyForDelivery(config, revocations, index.Keys, manifests, sorted, orderFailures, first, ready, screened);
      NothingAdmitted(plugins);
      ScreenedValid(config, revocations, index.Keys, sorted, first, ready, screened);
      var loaded, tally := Deliver(OfType(ready, Lua), Lua, backends, [], screened, base);
      ghost var lua := Reported(backends, OfType(ready, Lua), Lua);
      WasmStillVetted(config, revocations, taken.Keys, ready, index.Keys);
      ghost var midLoaded, mid, joined := loaded, tally, plugins;
      ghost var wasm := Reported(backends, OfType(ready, Wasm), Wasm);
      loaded, tally := Deliver(OfType(ready, Wasm), Wasm, backends, loaded, tally, base);
      NewcomersJoin(config, backends, base, joined, plugins, ready);
      FailuresInTurn(backends, ready, failures, screened, mid, tally);
      var last := Sweep(ready, index.Keys, tally);
      report := Some(LoadReport(loaded, last.failures));
      run := LoadRun(sorted, orderFailures, ready);
      if Confined(backends) {
        Delivers(config, revocations, sorted, first, ready, screened, lua, wasm, base, taken, plugins, index, mid,
          midLoaded, loaded, tally);
        LoadReports(config, revocations, taken.Keys, manifests, unreadable, backends, sorted, orderFailures, first,
          ready, screened, lua, wasm, base, plugins, index, loaded, tally, last);
      }
    }

    /** Unloads one plugin. Removal shifts every later plugin down, so the index is rebuilt. */
    method Remove(name: string) returns (r: Option<LoadedPlugin>)
      requires Indexed(plugins, index)
      modifies this`plugins, this`index, this`notices
      ensures Indexed(plugins, index) && (old(Valid()) ==> Valid())
      ensures RemoveStep(old(Now()), name, r, Now())
    {
      hide Indexed, Sound;
      IndexedDistinct(plugins, index);
      r := None;
      if name in index {
        var position := Place(plugins, index, name);
        KeepingOneLess(plugins, position);
        KeepingDistinct(plugins, {name});
        var plugin := plugins[position];
        plugins := plugins[..position] + plugins[position + 1..];
        index := Reindex(plugins);
        notices := notices + [Notice(plugin.manifest.pluginType, name)];
        assert Notices([plugin]) == [Notice(plugin.manifest.pluginType, name)];
        r := Some(plugin);
      } else {
        KeepingUnknown(plugins, name);
      }
    }

    /** Removes each plugin named, one after another. */
    method RemoveAll(names: seq<string>, ghost gone: seq<LoadedPlugin>)
      requires Indexed(plugins, index) && names == PluginNames(gone) && Distinct(names)
      requires forall p <- gone :: p in plugins
      modifies this`plugins, this`index, this`notices
      ensures Indexed(plugins, index) && plugins == Keeping(old(plugins), Members(names))
      ensures notices == old(notices) + Notices(gone)
    {
      ghost var before := plugins;
      KeepingAll(before, {});
      assert Members(names[..0]) == {} && Notices(gone[..0]) == [];
      for k := 0 to |names|
        invariant Indexed(plugins, index)
        invariant plugins == Keeping(before, Members(names[..k])) && notices == old(notices) + Notices(gone[..k])
      {
        hide Indexed, Keeping, Holds, AllSound, RemoveStep, Notices, Distinct, PluginNames;
        ghost var was := Now();
        var r := Remove(names[k]);
        OneGone(before, was, gone, names, k, old(notices), r, Now());
      }
      assert names[..|names|] == names && gone[..|names|] == gone;
    }

    /** Replaces the revocation list and unloads exactly the plugins it refuses. */
    method ApplyRevocations(list: seq<Revocation>, disk: Disk) returns (refused: seq<LoadFailure>)
      requires Valid()
      modifies this
      ensures Valid()
      ensures WithdrawStep(config, old(Now()), list, disk, refused, Now())
    {
      hide Indexed, Sound, Keeping, Unrefused, RefusedOf;
      refused := JudgeAll(config, list, disk, plugins);
      ghost var before, was := plugins, revocations;
      RemainingAreSound(config, was, list, disk, before, index, FailureNames(refused));
      RefusedAreLoaded(config, list, disk, before, index);
      // Stored before the removals, so a later load is judged by the same list.
      revocations := Some(list);
      RemoveAll(FailureNames(refused), RefusedOf(config, list, disk, before));
    }

    /**
     * Reads one plugin again from disk. It takes its slot exactly when it still is the same
     * plugin and passes everything anew; otherwise the old instance stays in place.
     */
    method Reload(name: string, disk: Disk, backends: Backends) returns (r: Option<ReloadError>)
      requires Valid() && FaithfulReloads(backends, config)
      modifies this`plugins
      ensures Valid()
      ensures ReloadStep(config, old(Now()), name, disk, backends, r, Now())
    {
      IndexedDistinct(plugins, index);
      hide Sound, Reloadable, Hindrance, Rebuilt, FoundItem, Indexed, AllSound, ReloadStep;
      if name !in index {
        ReloadUnknown(config, Now(), name, disk, backends);
        return Some(UnknownPlugin);
      }
      HoldsIndexed(config, revocations, plugins, index);
      var position := Place(plugins, index, name);
      ghost var before := Now();
      var plugin := Rebuild(config, revocations, plugins[position].manifest, disk, backends);
      if plugin.Err? {
        ReloadFails(config, before, name, disk, backends, plugin.error);
        return Some(NotReloaded(plugin.error));
      }
      ReloadTakes(config, before, name, disk, backends, plugin.value);
      ReplaceHolds(config, revocations, plugins, index, position, plugin.value);
      plugins := plugins[position := plugin.value];
      r := None;
    }

    /** Unbinds a granted capability from a live plugin; `held` is what its instance answers. */
    method Revoke(name: string, capability: string, held: bool) returns (r: Option<bool>)
      requires Valid()
      modifies this`plugins
      ensures Valid()
      ensures RevokeStep(old(Now()), name, capability, held, r, Now())
    {
      IndexedDistinct(plugins, index);
      if name !in index {
        return None;
      }
      var position := index[name];
      var granted := plugins[position].granted;
      var k := FirstOf(granted, capability);
      if k == |granted| {
        return Some(false);
      }
      hide Indexed, AllSound, Sound, WithoutFirst;
      UngrantedIsSound(config, revocations, plugins[position], k);
      var plugin := plugins[position].(granted := granted[..k] + granted[k + 1..]);
      FirstIsGone(granted, k);
      ReplaceHolds(config, revocations, plugins, index, position, plugin);
      plugins := plugins[position := plugin];
      r := Some(held);
    }
  }

  // ---------------------------------------------------------------- whole runs

  datatype Operation =
    | Load(found: Option<(seq<Manifest>, seq<LoadFailure>)>, disk: Disk, backends: Backends)
    | Reread(name: string, disk: Disk, backends: Backends)
    | Unload(name: string)
    | Unbind(name: string, capability: string, held: bool)
    | Withdraw(list: seq<Revocation>, disk: Disk)

  ghost predicate FaithfulOperation(op: Operation, config: Config) {
    match op
    case Load(_, _, backends) => FaithfulBackends(backends, config)
    case Reread(_, _, backends) => FaithfulReloads(backends, config)
    case _ => true
  }

  /** What an operation answers. */
  datatype Answer =
    | OfLoad(report: Option<LoadReport>)
    | OfReread(error: Option<ReloadError>)
    | OfUnload(removed: Option<LoadedPlugin>)
    | OfUnbind(held: Option<bool>)
    | OfWithdraw(refused: seq<LoadFailure>)

  /** One operation takes the tables from one moment to the next. */
  ghost predicate Step(config: Config, before: Tables, op: Operation, answer: Answer, after: Tables) {
    match (op, answer)
    case (Load(found, disk, backends), OfLoad(report)) =>
      exists run :: LoadStep(config, before, found, disk, backends, report, run, after)
    case (Reread(name, disk, backends), OfReread(error)) =>
      ReloadStep(config, before, name, disk, backends, error, after)
    case (Unload(name), OfUnload(removed)) => RemoveStep(before, name, removed, after)
    case (Unbind(name, capability, held), OfUnbind(r)) => RevokeStep(before, name, capability, held, r, after)
    case (Withdraw(list, disk), OfWithdraw(refused)) => WithdrawStep(config, before, list, disk, refused, after)
    case _ => false
  }

  /** The tables after each operation of a run that starts with none loaded. */
  ghost predicate Runs(config: Config, list: Revocations, ops: seq<Operation>, answers: seq<Answer>,
                       trace: seq<Tables>)
  {
    && |answers| == |ops| && |trace| == |ops| + 1 && trace[0] == Tables([], map[], list, [])
    && forall k :: 0 <= k < |ops| ==> Step(config, trace[k], ops[k], answers[k], trace[k + 1])
  }

  /** The list in force: the last one withdrawn by, or else the one the registry began with. */
  function ListAfter(list: Revocations, ops: seq<Operation>): Revocations {
    if ops == [] then list
    else
      match ops[|ops| - 1]
      case Withdraw(newer, _) => Some(newer)
      case _ => ListAfter(list, ops[..|ops| - 1])
  }

  lemma {:induction false} RunListAfter(config: Config, list: Revocations, ops: seq<Operation>, answers: seq<Answer>,
                                        trace: seq<Tables>, k: nat)
    requires Runs(config, list, ops, answers, trace) && k <= |ops|
    ensures trace[k].revocations == ListAfter(list, ops[..k])
  {
    hide Loads, Reloads, Unbound, Unrefused;
    if k > 0 {
      RunListAfter(config, list, ops, answers, trace, k - 1);
      assert ops[..k][..k - 1] == ops[..k - 1];
      assert Step(config, trace[k - 1], ops[k - 1], answers[k - 1], trace[k]);
    }
  }

  /**
   * A load or a reload that finds on disk just what the plugin is made from, none of it on the list
   * then in force, and that makes it with the grants approved for it, as its backend answered.
   */
  ghost predicate Supplies(config: Config, list: Revocations, op: Operation, p: LoadedPlugin) {
    match op
    case Load(_, disk, backends) =>
      && FoundItem(config, list, disk, ItemOf(p)) && Undenied(config, list, disk, p)
      && p.granted == ApprovedNames(config, p.manifest, p.signer) && p.manifest.pluginType in backends
      && exists ready :: Loaded(p.manifest.name, p.instance, p.granted) in backends[p.manifest.pluginType].load(ready)
    case Reread(_, disk, backends) =>
      && FoundItem(config, list, disk, ItemOf(p)) && Undenied(config, list, disk, p)
      && Rebuilt(config, backends, p)
    case _ => false
  }

  /** No entry of the list names the plugin's files as they were found, nor its signer. */
  ghost predicate Undenied(config: Config, list: Revocations, disk: Disk, p: LoadedPlugin) {
    list.Some? && list.value != [] ==>
      && (forall e <- disk.files(p.manifest.dir) :: !Unreadable(e))
      && forall entry <- list.value :: !Withdraws(entry, Some(DigestNow(config, disk.files(p.manifest.dir))), p.signer)
  }

  lemma FoundUndenied(config: Config, list: Revocations, disk: Disk, p: LoadedPlugin)
    requires FoundItem(config, list, disk, ItemOf(p)) && Cleared(config, list, p.manifest, p.signer, p.digest)
    ensures Undenied(config, list, disk, p)
  {
    if list.Some? && list.value != [] {
      FoundIsUndenied(config, list.value, p.manifest, disk.files(p.manifest.dir), disk.signature(p.manifest.dir),
        p.signer, p.digest);
    }
  }

  /** What one operation takes from the grants of a plugin: one occurrence of what it unbinds, if held. */
  ghost function UnboundBy(before: Tables, op: Operation, name: string): multiset<string> {
    match op
    case Unbind(target, capability, _) =>
      if target == name && exists q <- before.plugins :: q.Name() == name && capability in q.granted then
        multiset{capability}
      else multiset{}
    case _ => multiset{}
  }

  /** All that operations take from its grants, from one moment of a run to another. */
  ghost function UnboundSince(trace: seq<Tables>, ops: seq<Operation>, from: nat, to: nat, name: string):
    multiset<string>
    requires to <= |ops| && |ops| <= |trace|
  {
    if to <= from then multiset{}
    else UnboundSince(trace, ops, from, to - 1, name) + UnboundBy(trace[to - 1], ops[to - 1], name)
  }

  /** `p` is what is left of `q` once these grants are gone. */
  ghost predicate LeftOf(p: LoadedPlugin, q: LoadedPlugin, gone: multiset<string>) {
    p == q.(granted := p.granted) && multiset(q.granted) == multiset(p.granted) + gone
  }

  /** A plugin present after an operation was supplied by it, or was there before, but for a grant unbound. */
  lemma StepSupplies(config: Config, before: Tables, op: Operation, answer: Answer, after: Tables, p: LoadedPlugin)
    requires Step(config, before, op, answer, after) && p in after.plugins
    requires Indexed(before.plugins, before.index)
    ensures Supplies(config, before.revocations, op, p) ||
      exists q <- before.plugins :: LeftOf(p, q, UnboundBy(before, op, p.Name()))
  {
    hide Supplies, LoadStep, ReloadStep;
    var i :| 0 <= i < |after.plugins| && after.plugins[i] == p;
    match op {
      case Load(found, disk, backends) =>
        LoadSupplies(config, before, op, answer, after, i);
      case Reread(_, _, _) =>
        RereadSupplies(config, before, op, answer, after, i);
      case Unload(name) =>
        KeepingMembers(before.plugins, {name}, p);
      case Unbind(name, capability, held) =>
        UnbindLeaves(before, name, capability, held, answer.held, after, i);
      case Withdraw(list, disk) =>
        UnrefusedMembers(config, list, disk, before.plugins, p);
    }
  }

  lemma RereadSupplies(config: Config, before: Tables, op: Operation, answer: Answer, after: Tables, i: nat)
    requires op.Reread? && Step(config, before, op, answer, after) && i < |after.plugins|
    ensures var p := after.plugins[i];
      Supplies(config, before.revocations, op, p) ||
      exists q <- before.plugins :: LeftOf(p, q, UnboundBy(before, op, p.Name()))
  {
    hide FoundItem, Cleared, Rebuilt, Undenied, Bound, Hindrance, Reloadable;
    var p := after.plugins[i];
    if answer.error.None? && i == before.index[op.name] {
      FoundUndenied(config, before.revocations, op.disk, p);
    } else {
      assert before.plugins[i] == p && before.plugins[i] in before.plugins;
    }
  }

  lemma LoadSupplies(config: Config, before: Tables, op: Operation, answer: Answer, after: Tables, i: nat)
    requires op.Load? && Step(config, before, op, answer, after) && i < |after.plugins|
    ensures var p := after.plugins[i];
      Supplies(config, before.revocations, op, p) ||
      exists q <- before.plugins :: LeftOf(p, q, UnboundBy(before, op, p.Name()))
  {
    hide FoundItem, Vetted, Reports, SweptFrom, PassedUpTo, Resolution.Accounted, Resolution.Resolved, FailuresBy,
      LoadedBy, Undenied;
    var run :| LoadStep(config, before, op.found, op.disk, op.backends, answer.report, run, after);
    var p := after.plugins[i];
    if i < |before.plugins| {
      assert before.plugins[i] == p && before.plugins[i] in before.plugins;
    } else {
      assert answer.report.Some? && Joins(config, op.backends, p, run.ready);
      var item :| item in run.ready &&
        MadeFrom(config, p, item, AnswersBy(op.backends, run.ready, item.manifest.pluginType));
      assert item == ItemOf(p) && FoundItem(config, before.revocations, op.disk, item);
      VettedIsCleared(config, before.revocations, before.index.Keys, item);
      FoundUndenied(config, before.revocations, op.disk, p);
    }
  }

  lemma VettedIsCleared(config: Config, list: Revocations, taken: set<string>, item: ReadyItem)
    requires Vetted(config, list, taken, item)
    ensures Cleared(config, list, item.manifest, item.signer, item.digest)
  {
  }

  lemma UnbindLeaves(before: Tables, name: string, capability: string, held: bool, r: Option<bool>, after: Tables,
                     i: nat)
    requires Indexed(before.plugins, before.index) && RevokeStep(before, name, capability, held, r, after)
    requires i < |after.plugins|
    ensures i < |before.plugins|
    ensures LeftOf(after.plugins[i], before.plugins[i],
              UnboundBy(before, Unbind(name, capability, held), after.plugins[i].Name()))
  {
    var q := before.plugins[i];
    assert q in before.plugins;
    IndexedDistinct(before.plugins, before.index);
    assert forall k :: 0 <= k < |before.plugins| && before.plugins[k].Name() == q.Name() ==> k == i;
    forall other | other in before.plugins && other.Name() == q.Name() ensures other == q {
      var k :| 0 <= k < |before.plugins| && before.plugins[k] == other;
    }
    if name !in PluginNames(before.plugins) {
      assert PluginNames(before.plugins)[i] == q.Name();
    }
  }

  lemma {:induction false} UnrefusedMembers(config: Config, list: seq<Revocation>, disk: Disk,
                                            plugins: seq<LoadedPlugin>,
                                            p: LoadedPlugin)
    ensures p in Unrefused(config, list, disk, plugins) <==> p in plugins && !Refuses(config, list, disk, p)
  {
    if plugins != [] {
      var last := |plugins| - 1;
      assert plugins == plugins[..last] + [plugins[last]];
      UnrefusedMembers(config, list, disk, plugins[..last], p);
    }
  }

  /** By the `k`-th moment of a run, `p` is what is left of the plugin `q` that its `j`-th operation supplied. */
  ghost predicate SuppliedBy(config: Config, list: Revocations, ops: seq<Operation>, trace: seq<Tables>, k: nat,
                             p: LoadedPlugin, j: nat, q: LoadedPlugin)
    requires k <= |ops| && |ops| <= |trace|
  {
    && j < k && Supplies(config, ListAfter(list, ops[..j]), ops[j], q)
    && LeftOf(p, q, UnboundSince(trace, ops, j + 1, k, p.Name()))
  }

  /**
   * Wherever a run stands, every plugin in the registry was supplied by some load or reload of that
   * run, under the list then in force, and holds the grants approved then, less one occurrence for
   * each capability it held that was unbound since.
   */
  lemma {:induction false} Provenance(config: Config, list: Revocations, ops: seq<Operation>, answers: seq<Answer>,
                                      trace: seq<Tables>, k: nat, p: LoadedPlugin)
    requires Runs(config, list, ops, answers, trace) && k <= |ops| && p in trace[k].plugins
    requires forall tables <- trace :: Safe(config, tables)
    ensures exists j, q :: SuppliedBy(config, list, ops, trace, k, p, j, q)
    decreases k
  {
    if k > 0 {
      hide SuppliedBy, Step, Safe;
      assert Step(config, trace[k - 1], ops[k - 1], answers[k - 1], trace[k - 1 + 1]);
      assert trace[k - 1] in trace;
      SafeIndexed(config, trace[k - 1]);
      StepSupplies(config, trace[k - 1], ops[k - 1], answers[k - 1], trace[k], p);
      RunListAfter(config, list, ops, answers, trace, k - 1);
      hide Supplies, LeftOf, UnboundBy, ListAfter, Indexed;
      if Supplies(config, trace[k - 1].revocations, ops[k - 1], p) {
        SuppliedNow(config, list, ops, trace, k, p);
      } else {
        var q :| q in trace[k - 1].plugins && LeftOf(p, q, UnboundBy(trace[k - 1], ops[k - 1], p.Name()));
        Provenance(config, list, ops, answers, trace, k - 1, q);
        var j, first :| SuppliedBy(config, list, ops, trace, k - 1, q, j, first);
        SuppliedOn(config, list, ops, trace, k, p, j, q, first);
      }
    }
  }

  lemma SafeIndexed(config: Config, tables: Tables)
    requires Safe(config, tables)
    ensures Indexed(tables.plugins, tables.index)
  {
  }

  lemma SuppliedNow(config: Config, list: Revocations, ops: seq<Operation>, trace: seq<Tables>, k: nat, p: LoadedPlugin)
    requires 0 < k <= |ops| <= |trace| && Supplies(config, ListAfter(list, ops[..k - 1]), ops[k - 1], p)
    ensures SuppliedBy(config, list, ops, trace, k, p, k - 1, p)
  {
    LeftWhole(p);
  }

  lemma SuppliedOn(config: Config, list: Revocations, ops: seq<Operation>, trace: seq<Tables>, k: nat, p: LoadedPlugin,
                   j: nat, q: LoadedPlugin, first: LoadedPlugin)
    requires 0 < k <= |ops| <= |trace| && SuppliedBy(config, list, ops, trace, k - 1, q, j, first)
    requires LeftOf(p, q, UnboundBy(trace[k - 1], ops[k - 1], p.Name()))
    ensures SuppliedBy(config, list, ops, trace, k, p, j, first)
  {
    hide Supplies, UnboundBy, ListAfter;
    LeftOn(p, q, first, UnboundBy(trace[k - 1], ops[k - 1], p.Name()),
      UnboundSince(trace, ops, j + 1, k - 1, q.Name()));
  }

  lemma LeftWhole(p: LoadedPlugin)
    ensures LeftOf(p, p, multiset{})
  {
  }

  lemma LeftOn(p: LoadedPlugin, q: LoadedPlugin, first: LoadedPlugin, late: multiset<string>, early: multiset<string>)
    requires LeftOf(p, q, late) && LeftOf(q, first, early)
    ensures LeftOf(p, first, early + late) && p.Name() == q.Name()
  {
  }

  lemma HoldsIndexed(config: Config, list: Revocations, plugins: seq<LoadedPlugin>, index: map<string, int>)
    requires Holds(config, list, plugins, index)
    ensures Indexed(plugins, index)
  {
  }

  /** The tables satisfy the registry's invariant. */
  ghost predicate Safe(config: Config, tables: Tables) {
    Holds(config, tables.revocations, tables.plugins, tables.index)
  }

  /**
   * Whatever a host does with a registry, it goes from one moment to the next as the operation
   * says, and at each of them every plugin it holds has passed everything that is demanded then.
   */
  method Run(config: Config, revocations: Revocations, ops: seq<Operation>)
    returns (registry: Registry, answers: seq<Answer>, ghost trace: seq<Tables>)
    requires forall op <- ops :: FaithfulOperation(op, config)
    ensures Runs(config, revocations, ops, answers, trace)
    ensures forall tables <- trace :: Safe(config, tables) && Distinct(PluginNames(tables.plugins))
    ensures registry.config == config && registry.Now() == trace[|ops|]
    ensures registry.revocations == ListAfter(revocations, ops)
  {
    hide Holds, FaithfulBackends, FaithfulReloads, LoadStep, ReloadStep, RemoveStep, RevokeStep, WithdrawStep;
    registry := new Registry(config, revocations);
    answers, trace := [], [registry.Now()];
    for k := 0 to |ops|
      invariant fresh(registry) && registry.Valid() && registry.config == config
      invariant Runs(config, revocations, ops[..k], answers, trace) && registry.Now() == trace[k]
      invariant forall tables <- trace :: Safe(config, tables)
    {
      assert FaithfulOperation(ops[k], config);
      var answer;
      match ops[k] {
        case Load(found, disk, backends) =>
          var report, run := registry.LoadDir(found, disk, backends);
          answer := OfLoad(report);
        case Reread(name, disk, backends) =>
          var error := registry.Reload(name, disk, backends);
          answer := OfReread(error);
        case Unload(name) =>
          HoldsIndexed(registry.config, registry.revocations, registry.plugins, registry.index);
          var removed := registry.Remove(name);
          answer := OfUnload(removed);
        case Unbind(name, capability, held) =>
          var r := registry.Revoke(name, capability, held);
          answer := OfUnbind(r);
        case Withdraw(list, disk) =>
          var refused := registry.ApplyRevocations(list, disk);
          answer := OfWithdraw(refused);
      }
      RunsOn(config, revocations, ops, k, answers, trace, answer, registry.Now());
      answers, trace := answers + [answer], trace + [registry.Now()];
    }
    assert ops[..|ops|] == ops;
    forall tables <- trace ensures Distinct(PluginNames(tables.plugins)) {
      SafeDistinct(config, tables);
    }
    RunListAfter(config, revocations, ops, answers, trace, |ops|);
  }

  lemma SafeDistinct(config: Config, tables: Tables)
    requires Safe(config, tables)
    ensures Distinct(PluginNames(tables.plugins))
  {
    IndexedDistinct(tables.plugins, tables.index);
  }

  lemma RunsOn(config: Config, list: Revocations, ops: seq<Operation>, k: nat, answers: seq<Answer>, trace: seq<Tables>,
               answer: Answer, after: Tables)
    requires k < |ops| && Runs(config, list, ops[..k], answers, trace)
    requires Step(config, trace[k], ops[k], answer, after)
    ensures Runs(config, list, ops[..k + 1], answers + [answer], trace + [after])
  {
    hide Step;
    var was, now := ops[..k], ops[..k + 1];
    forall i | 0 <= i < |now|
      ensures Step(config, (trace + [after])[i], now[i], (answers + [answer])[i], (trace + [after])[i + 1])
    {
      if i < k {
        assert Step(config, trace[i], was[i], answers[i], trace[i + 1]);
      }
    }
  }
}
