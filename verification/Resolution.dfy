/** Ordering a plugin root by its dependencies: `resolve_order` and `check_dependencies`. */
module Resolution {
  import opened Wrappers
  import opened Orders
  import opened Distinctness
  import opened Manifests
  import opened Failures
  import opened Kahn

  // ---------------------------------------------------------------- checking requirements

  /** What the root offers under each name; the last manifest of a name wins. */
  function Versions(ms: seq<Manifest>): (versions: map<string, Version>)
    ensures versions.Keys == Position(ms).Keys
  {
    map name | name in Position(ms) :: ms[Position(ms)[name]].EffectiveVersion()
  }

  predicate Satisfied(d: Dependency, versions: map<string, Version>) {
    if d.name in versions then d.accepts(versions[d.name]) else d.optional
  }

  function CheckDependencies(deps: seq<Dependency>, versions: map<string, Version>): Option<FailureReason> {
    if deps == [] then None
    else if deps[0].name in versions then
      if deps[0].accepts(versions[deps[0].name]) then CheckDependencies(deps[1..], versions)
      else Some(IncompatibleDependency(deps[0].name))
    else if deps[0].optional then CheckDependencies(deps[1..], versions)
    else Some(MissingDependency(deps[0].name))
  }

  /**
   * The check passes exactly when every dependency is satisfied; a refusal names the first
   * that is not. An optional dependency may be absent, but not present at a wrong version.
   */
  lemma {:induction false} CheckFindsFirstUnmet(deps: seq<Dependency>, versions: map<string, Version>)
    ensures CheckDependencies(deps, versions).None? <==> forall i :: 0 <= i < |deps| ==> Satisfied(deps[i], versions)
    ensures CheckDependencies(deps, versions).Some? ==>
      exists i :: 0 <= i < |deps| && !Satisfied(deps[i], versions) &&
        (forall j :: 0 <= j < i ==> Satisfied(deps[j], versions)) &&
        CheckDependencies(deps, versions).value ==
          if deps[i].name in versions then IncompatibleDependency(deps[i].name) else MissingDependency(deps[i].name)
  {
    if deps != [] {
      if Satisfied(deps[0], versions) {
        var tail := deps[1..];
        CheckFindsFirstUnmet(tail, versions);
        assert forall i :: 0 < i < |deps| ==> deps[i] == tail[i - 1];
        if CheckDependencies(tail, versions).Some? {
          var i :| 0 <= i < |tail| && !Satisfied(tail[i], versions) &&
            (forall j :: 0 <= j < i ==> Satisfied(tail[j], versions)) &&
            CheckDependencies(tail, versions).value ==
              if tail[i].name in versions then IncompatibleDependency(tail[i].name)
              else MissingDependency(tail[i].name);
          assert deps[i + 1] == tail[i];
        }
      } else {
        assert !Satisfied(deps[0], versions);
      }
    }
  }

  predicate Passes(m: Manifest, versions: map<string, Version>) {
    CheckDependencies(m.dependencies, versions).None?
  }

  /** Which plugin directory an entry of the result stands for. */
  datatype Ident = Ident(name: string, dir: string)

  function Idents(ms: seq<Manifest>): (r: seq<Ident>)
    ensures |r| == |ms|
  {
    seq(|ms|, i requires 0 <= i < |ms| => Ident(ms[i].name, ms[i].dir))
  }

  function FailureIdents(fs: seq<LoadFailure>): (r: seq<Ident>)
    ensures |r| == |fs|
  {
    seq(|fs|, i requires 0 <= i < |fs| => Ident(fs[i].name, fs[i].dir))
  }

  /** The first `k` manifests that pass the check, and the failures of the others. */
  ghost function PassingUpTo(ms: seq<Manifest>, versions: map<string, Version>, k: nat): seq<Manifest>
    requires k <= |ms|
  {
    if k == 0 then []
    else if Passes(ms[k - 1], versions) then PassingUpTo(ms, versions, k - 1) + [ms[k - 1]]
    else PassingUpTo(ms, versions, k - 1)
  }

  ghost function RefusedUpTo(ms: seq<Manifest>, versions: map<string, Version>, k: nat): seq<LoadFailure>
    requires k <= |ms|
  {
    if k == 0 then []
    else
      match CheckDependencies(ms[k - 1].dependencies, versions)
      case None => RefusedUpTo(ms, versions, k - 1)
      case Some(reason) =>
        RefusedUpTo(ms, versions, k - 1) + [LoadFailure(ms[k - 1].name, ms[k - 1].dir, reason)]
  }

  ghost function Passing(ms: seq<Manifest>): seq<Manifest> {
    PassingUpTo(ms, Versions(ms), |ms|)
  }

  ghost function Refused(ms: seq<Manifest>): seq<LoadFailure> {
    RefusedUpTo(ms, Versions(ms), |ms|)
  }

  lemma IdentsAppend(ms: seq<Manifest>, m: Manifest)
    ensures multiset(Idents(ms + [m])) == multiset(Idents(ms)) + multiset{Ident(m.name, m.dir)}
  {
    assert Idents(ms + [m]) == Idents(ms) + [Ident(m.name, m.dir)];
  }

  lemma FailureIdentsAppend(fs: seq<LoadFailure>, f: LoadFailure)
    ensures multiset(FailureIdents(fs + [f])) == multiset(FailureIdents(fs)) + multiset{Ident(f.name, f.dir)}
  {
    assert FailureIdents(fs + [f]) == FailureIdents(fs) + [Ident(f.name, f.dir)];
  }

  lemma {:induction false} CheckConserves(ms: seq<Manifest>, versions: map<string, Version>, k: nat)
    requires k <= |ms|
    ensures multiset(Idents(PassingUpTo(ms, versions, k))) + multiset(FailureIdents(RefusedUpTo(ms, versions, k)))
      == multiset(Idents(ms[..k]))
  {
    if k > 0 {
      var m := ms[k - 1];
      CheckConserves(ms, versions, k - 1);
      assert ms[..k] == ms[..k - 1] + [m];
      IdentsAppend(ms[..k - 1], m);
      match CheckDependencies(m.dependencies, versions)
      case None => IdentsAppend(PassingUpTo(ms, versions, k - 1), m);
      case Some(reason) =>
        FailureIdentsAppend(RefusedUpTo(ms, versions, k - 1), LoadFailure(m.name, m.dir, reason));
    }
  }

  lemma {:induction false} PassingMembers(ms: seq<Manifest>, versions: map<string, Version>, k: nat, m: Manifest)
    requires k <= |ms|
    ensures m in PassingUpTo(ms, versions, k) <==> m in ms[..k] && Passes(m, versions)
  {
    if k > 0 {
      PassingMembers(ms, versions, k - 1, m);
      assert ms[..k] == ms[..k - 1] + [ms[k - 1]];
    }
  }

  method Partition(ms: seq<Manifest>, versions: map<string, Version>)
    returns (pending: seq<Manifest>, failures: seq<LoadFailure>)
    ensures pending == PassingUpTo(ms, versions, |ms|) && failures == RefusedUpTo(ms, versions, |ms|)
  {
    pending, failures := [], [];
    for k := 0 to |ms|
      invariant pending == PassingUpTo(ms, versions, k) && failures == RefusedUpTo(ms, versions, k)
    {
      match CheckDependencies(ms[k].dependencies, versions)
      case None => pending := pending + [ms[k]];
      case Some(reason) => failures := failures + [LoadFailure(ms[k].name, ms[k].dir, reason)];
    }
  }

  // ---------------------------------------------------------------- the dependency graph

  /** The dependencies that contribute an edge: present in the root and not refused. */
  function Blocking(deps: seq<Dependency>, versions: map<string, Version>, dropped: set<string>): (r: seq<string>)
    ensures forall x <- r :: x in versions && x !in dropped
    ensures forall i :: 0 <= i < |deps| && deps[i].name in versions && deps[i].name !in dropped ==> deps[i].name in r
    ensures forall x <- r :: exists i :: 0 <= i < |deps| && deps[i].name == x
  {
    if deps == [] then []
    else
      var rest := Blocking(deps[1..], versions, dropped);
      assert forall x <- rest :: exists i :: 0 <= i < |deps[1..]| && deps[1..][i].name == x;
      assert forall i :: 0 <= i < |deps[1..]| ==> deps[1..][i] == deps[i + 1];
      if deps[0].name in versions && deps[0].name !in dropped then [deps[0].name] + rest else rest
  }

  lemma {:induction false} CountedDistinct(m: Manifest, k: nat, versions: map<string, Version>, dropped: set<string>)
    requires m.Keyed() && k <= |m.dependencies|
    ensures Distinct(Blocking(m.dependencies[k..], versions, dropped))
    decreases |m.dependencies| - k
  {
    var deps := m.dependencies[k..];
    if deps != [] {
      CountedDistinct(m, k + 1, versions, dropped);
      assert deps[1..] == m.dependencies[k + 1..];
      assert forall i :: 0 <= i < |deps[1..]| ==> deps[1..][i].name == m.dependencies[k + 1 + i].name != deps[0].name;
      assert deps[0].name !in Blocking(deps[1..], versions, dropped);
    }
  }

  ghost function GraphUpTo(pending: seq<Manifest>, versions: map<string, Version>, dropped: set<string>, k: nat): Graph
    requires k <= |pending|
  {
    if k == 0 then map[]
    else
      var m := pending[k - 1];
      GraphUpTo(pending, versions, dropped, k - 1)[m.name := Members(Blocking(m.dependencies, versions, dropped))]
  }

  /** The edges `resolve_order` orders by: from each plugin that passed to its counted dependencies. */
  ghost function GraphOf(ms: seq<Manifest>): Graph {
    GraphUpTo(Passing(ms), Versions(ms), Members(FailureNames(Refused(ms))), |Passing(ms)|)
  }

  ghost predicate Reverses(g: Graph, dependents: map<string, seq<string>>) {
    && (forall d <- dependents :: Reverse(g, d, dependents[d]))
    && (forall x <- g, d <- g[x] :: d in dependents)
  }

  function Appended(dependents: map<string, seq<string>>, dep: string, name: string): map<string, seq<string>> {
    dependents[dep := (if dep in dependents then dependents[dep] else []) + [name]]
  }

  lemma ReversesAppend(g: Graph, dependents: map<string, seq<string>>, name: string, dep: string)
    requires Reverses(g, dependents) && name in g && dep !in g[name]
    ensures Reverses(g[name := g[name] + {dep}], Appended(dependents, dep, name))
  {
    var g', dependents' := g[name := g[name] + {dep}], Appended(dependents, dep, name);
    forall d <- dependents' ensures Reverse(g', d, dependents'[d]) {
      if d in dependents {
        assert Reverse(g, d, dependents[d]);
      }
    }
  }

  /** Records `name` as a dependent of each of `deps`. */
  method AddDependents(dependents0: map<string, seq<string>>, name: string, deps: seq<string>,
                       ghost g: Graph, ghost names: set<string>)
    returns (dependents: map<string, seq<string>>)
    requires name in names && forall d <- dependents0 :: Within(names, dependents0[d])
    ensures forall d <- dependents :: Within(names, dependents[d])
    ensures name !in g && Distinct(deps) && Reverses(g, dependents0) ==> Reverses(g[name := Members(deps)], dependents)
  {
    ghost var fits := name !in g && Distinct(deps) && Reverses(g, dependents0);
    dependents := dependents0;
    assert fits ==> Reverses(g[name := Members(deps[..0])], dependents);
    for j := 0 to |deps|
      invariant forall d <- dependents :: Within(names, dependents[d])
      invariant fits ==> Reverses(g[name := Members(deps[..j])], dependents)
    {
      if fits {
        var h := g[name := Members(deps[..j])];
        assert deps[..j + 1] == deps[..j] + [deps[j]];
        assert Members(deps[..j + 1]) == Members(deps[..j]) + {deps[j]};
        ReversesAppend(h, dependents, name, deps[j]);
        assert h[name := h[name] + {deps[j]}] == g[name := Members(deps[..j + 1])];
      }
      dependents := Appended(dependents, deps[j], name);
    }
    assert deps[..|deps|] == deps;
  }

  ghost predicate Tabulated(g: Graph, indegree: map<string, nat>, dependents: map<string, seq<string>>) {
    indegree.Keys == g.Keys && Reverses(g, dependents) && forall x <- g :: indegree[x] == |g[x]|
  }

  ghost predicate Orderly(pending: seq<Manifest>) {
    Distinct(Names(pending)) && forall m <- pending :: m.Keyed()
  }

  /** The dependency counts and reverse edges, accumulated manifest by manifest. */
  method BuildTables(pending: seq<Manifest>, versions: map<string, Version>, dropped: set<string>)
    returns (indegree: map<string, nat>, dependents: map<string, seq<string>>)
    ensures forall d <- dependents :: Within(Members(Names(pending)), dependents[d])
    ensures Orderly(pending) ==> Tabulated(GraphUpTo(pending, versions, dropped, |pending|), indegree, dependents)
  {
    indegree, dependents := map[], map[];
    ghost var orderly, names := Orderly(pending), Members(Names(pending));
    for k := 0 to |pending|
      invariant forall d <- dependents :: Within(names, dependents[d])
      invariant orderly ==> Tabulated(GraphUpTo(pending, versions, dropped, k), indegree, dependents)
    {
      var name, deps := pending[k].name, Blocking(pending[k].dependencies, versions, dropped);
      assert Names(pending)[k] == name;
      ghost var g := GraphUpTo(pending, versions, dropped, k);
      if orderly {
        assert pending[k] in pending;
        NameIsNew(pending, versions, dropped, k);
        CountedDistinct(pending[k], 0, versions, dropped);
        assert pending[k].dependencies[0..] == pending[k].dependencies;
        MemberCount(deps);
      }
      indegree := indegree[name := |deps|];
      dependents := AddDependents(dependents, name, deps, g, names);
    }
  }

  lemma {:induction false} GraphNames(pending: seq<Manifest>, versions: map<string, Version>, dropped: set<string>,
                                      k: nat, x: string)
    requires k <= |pending|
    ensures x in GraphUpTo(pending, versions, dropped, k) <==> x in Names(pending)[..k]
  {
    if k > 0 {
      GraphNames(pending, versions, dropped, k - 1, x);
      assert Names(pending)[..k] == Names(pending)[..k - 1] + [pending[k - 1].name];
    }
  }

  lemma NameIsNew(pending: seq<Manifest>, versions: map<string, Version>, dropped: set<string>, k: nat)
    requires k < |pending| && Distinct(Names(pending))
    ensures pending[k].name !in GraphUpTo(pending, versions, dropped, k)
  {
    GraphNames(pending, versions, dropped, k, pending[k].name);
    assert Names(pending)[k] == pending[k].name;
  }

  /** Blocking edges never leave the plugins that passed. */
  lemma GraphClosed(ms: seq<Manifest>)
    ensures Closed(GraphOf(ms))
  {
    var pending, versions, dropped := Passing(ms), Versions(ms), Members(FailureNames(Refused(ms)));
    forall x <- GraphOf(ms), d <- GraphOf(ms)[x] ensures d in GraphOf(ms) {
      GraphTargets(pending, versions, dropped, |pending|, x, d);
      PresentOrDropped(ms, versions, |ms|, ms[Position(ms)[d]]);
      GraphNames(pending, versions, dropped, |pending|, d);
    }
  }

  lemma {:induction false} GraphTargets(pending: seq<Manifest>, versions: map<string, Version>, dropped: set<string>,
                                        k: nat, x: string, d: string)
    requires k <= |pending|
    requires x in GraphUpTo(pending, versions, dropped, k) && d in GraphUpTo(pending, versions, dropped, k)[x]
    ensures d in versions && d !in dropped
  {
    if x != pending[k - 1].name {
      GraphTargets(pending, versions, dropped, k - 1, x, d);
    }
  }

  lemma {:induction false} PresentOrDropped(ms: seq<Manifest>, versions: map<string, Version>, k: nat, m: Manifest)
    requires k <= |ms| && m in ms[..k]
    ensures m.name in Names(PassingUpTo(ms, versions, k)) || m.name in FailureNames(RefusedUpTo(ms, versions, k))
  {
    var passed, refused := PassingUpTo(ms, versions, k), RefusedUpTo(ms, versions, k);
    var last := ms[k - 1];
    assert ms[..k] == ms[..k - 1] + [last];
    if m == last {
      if Passes(last, versions) {
        assert Names(passed)[|passed| - 1] == m.name;
      } else {
        assert FailureNames(refused)[|refused| - 1] == m.name;
      }
    } else {
      PresentOrDropped(ms, versions, k - 1, m);
      var passed', refused' := PassingUpTo(ms, versions, k - 1), RefusedUpTo(ms, versions, k - 1);
      if m.name in Names(passed') {
        var i :| 0 <= i < |passed'| && Names(passed')[i] == m.name;
        assert Names(passed)[i] == m.name;
      } else {
        var i :| 0 <= i < |refused'| && FailureNames(refused')[i] == m.name;
        assert FailureNames(refused)[i] == m.name;
      }
    }
  }

  // ---------------------------------------------------------------- the queue's start and end

  predicate ByName(a: Manifest, b: Manifest) {
    NameLeq(a.name, b.name)
  }

  function NamesSorted(pending: seq<Manifest>): seq<Manifest> {
    Sort(pending, ByName)
  }

  /** The plugins with nothing to wait for, in the order they are given. */
  function Idle(pending: seq<Manifest>, indegree: map<string, nat>): (r: seq<string>)
    ensures forall x <- r :: x in Names(pending)
    ensures forall i :: 0 <= i < |pending| ==>
      (pending[i].name in r <==> pending[i].name !in indegree || indegree[pending[i].name] == 0)
  {
    if pending == [] then []
    else
      var last := |pending| - 1;
      var rest := Idle(pending[..last], indegree);
      assert Names(pending) == Names(pending[..last]) + [pending[last].name];
      assert forall i :: 0 <= i < last ==> pending[..last][i] == pending[i];
      if pending[last].name !in indegree || indegree[pending[last].name] == 0 then rest + [pending[last].name]
      else rest
  }

  lemma SortKeepsNames(pending: seq<Manifest>)
    ensures |NamesSorted(pending)| == |pending|
    ensures forall m :: m in NamesSorted(pending) <==> m in pending
    ensures Members(Names(NamesSorted(pending))) == Members(Names(pending))
    ensures Distinct(Names(NamesSorted(pending))) <==> Distinct(Names(pending))
  {
    var sorted := NamesSorted(pending);
    SameMembers(sorted, pending);
    forall x ensures x in Names(sorted) <==> x in Names(pending) {
      if x in Names(sorted) {
        var i :| 0 <= i < |sorted| && Names(sorted)[i] == x;
        assert sorted[i] in pending;
        var j :| 0 <= j < |pending| && pending[j] == sorted[i];
        assert Names(pending)[j] == x;
      }
      if x in Names(pending) {
        var i :| 0 <= i < |pending| && Names(pending)[i] == x;
        assert pending[i] in sorted;
        var j :| 0 <= j < |sorted| && sorted[j] == pending[i];
        assert Names(sorted)[j] == x;
      }
    }
    assert Members(Names(sorted)) == Members(Names(pending));
    MemberCount(Names(sorted));
    MemberCount(Names(pending));
  }

  ghost predicate NameSorted(names: seq<string>) {
    forall i, j :: 0 <= i < j < |names| ==> NameLeq(names[i], names[j])
  }

  lemma {:induction false} IdleIsSorted(pending: seq<Manifest>, indegree: map<string, nat>)
    requires SortedBy(ByName, pending)
    ensures NameSorted(Idle(pending, indegree))
  {
    if pending != [] {
      var last := |pending| - 1;
      IdleIsSorted(pending[..last], indegree);
      var rest := Idle(pending[..last], indegree);
      forall i | 0 <= i < |rest| ensures NameLeq(rest[i], pending[last].name) {
        assert rest[i] in Names(pending[..last]);
        var k :| 0 <= k < last && Names(pending[..last])[k] == rest[i];
        assert ByName(pending[k], pending[last]);
      }
    }
  }

  lemma {:induction false} IdleIsDistinct(pending: seq<Manifest>, indegree: map<string, nat>)
    requires Distinct(Names(pending))
    ensures Distinct(Idle(pending, indegree))
  {
    if pending != [] {
      var last := |pending| - 1;
      assert Names(pending) == Names(pending[..last]) + [pending[last].name];
      assert forall i :: 0 <= i < last ==> Names(pending)[i] == Names(pending[..last])[i];
      IdleIsDistinct(pending[..last], indegree);
      assert pending[last].name !in Names(pending[..last]);
    }
  }

  lemma ByNameOrder()
    ensures TotalPreorder(ByName)
  {
    NameOrder();
    forall x, y ensures ByName(x, y) || ByName(y, x) {
      assert NameLeq(x.name, y.name) || NameLeq(y.name, x.name);
    }
    forall x, y, z | ByName(x, y) && ByName(y, z) ensures ByName(x, z) {
      assert NameLeq(x.name, y.name) && NameLeq(y.name, z.name);
    }
  }

  // ---------------------------------------------------------------- what is returned

  /** The names given, in order, that the order left out. */
  function Unordered(names: seq<string>, order: seq<string>): (r: seq<string>)
    ensures forall x :: x in r <==> x in names && x !in order
  {
    if names == [] then []
    else if names[0] in order then Unordered(names[1..], order)
    else [names[0]] + Unordered(names[1..], order)
  }

  /** The manifest found under each name. */
  function Lookup(ms: seq<Manifest>): (byName: map<string, Manifest>)
    ensures forall x :: x in byName <==> x in Names(ms)
    ensures forall x <- byName :: byName[x] in ms && byName[x].name == x
  {
    assert forall x :: x in Position(ms) <==> x in Names(ms) by {
      forall x { PositionKeys(ms, x); }
    }
    map x | x in Position(ms) :: ms[Position(ms)[x]]
  }

  /** Takes each named manifest out of `byName` once, in the order named. */
  method TakeNamed(names: seq<string>, byName0: map<string, Manifest>)
    returns (taken: seq<Manifest>, byName: map<string, Manifest>)
    requires forall x <- byName0 :: byName0[x].name == x
    ensures byName == byName0 - Members(names)
    ensures Distinct(Names(taken))
    ensures forall x :: x in Names(taken) <==> x in names && x in byName0
    ensures forall m <- taken :: m.name in byName0 && m == byName0[m.name]
    ensures Distinct(names) && (forall x <- names :: x in byName0) ==> Names(taken) == names
  {
    taken, byName := [], byName0;
    for k := 0 to |names|
      invariant byName == byName0 - Members(names[..k])
      invariant Distinct(Names(taken))
      invariant forall x :: x in Names(taken) <==> x in names[..k] && x in byName0
      invariant forall m <- taken :: m.name in byName0 && m == byName0[m.name]
      invariant Distinct(names) && (forall x <- names :: x in byName0) ==> Names(taken) == names[..k]
    {
      assert names[..k + 1] == names[..k] + [names[k]];
      assert Members(names[..k + 1]) == Members(names[..k]) + {names[k]};
      if names[k] in byName {
        assert Names(taken + [byName[names[k]]]) == Names(taken) + [names[k]];
        taken := taken + [byName[names[k]]];
        byName := byName - {names[k]};
      }
    }
    assert names[..|names|] == names;
  }

  function CycleFailures(held: seq<Manifest>, cycle: seq<string>): (fs: seq<LoadFailure>)
    ensures |fs| == |held|
    ensures forall i :: 0 <= i < |held| ==> fs[i] == LoadFailure(held[i].name, held[i].dir, DependencyCycle(cycle))
  {
    seq(|held|, i requires 0 <= i < |held| => LoadFailure(held[i].name, held[i].dir, DependencyCycle(cycle)))
  }

  /** The failures reported after the requirement check: those caught in a cycle. */
  ghost function Held(ms: seq<Manifest>, failures: seq<LoadFailure>): seq<LoadFailure> {
    if |Refused(ms)| <= |failures| then failures[|Refused(ms)|..] else []
  }

  ghost predicate StandsFor(f: LoadFailure, m: Manifest) {
    f.name == m.name && f.dir == m.dir
  }

  /**
   * What holds of any input: refused manifests fail in input order, and then every name that
   * passed the check turns up exactly once, either ordered or held back as a cycle.
   */
  ghost predicate Accounted(ms: seq<Manifest>, sorted: seq<Manifest>, failures: seq<LoadFailure>) {
    var held := Held(ms, failures);
    && failures == Refused(ms) + held
    && Distinct(Names(sorted) + FailureNames(held))
    && (forall x :: x in Names(sorted) + FailureNames(held) <==> x in Names(Passing(ms)))
    && AllPassed(ms, sorted, held)
  }

  ghost predicate AllPassed(ms: seq<Manifest>, sorted: seq<Manifest>, held: seq<LoadFailure>) {
    && (forall m <- sorted :: m in Passing(ms))
    && (forall f <- held :: f.reason.DependencyCycle? && exists m :: m in Passing(ms) && StandsFor(f, m))
  }

  /** What holds once no two manifests that pass the check share a name. */
  ghost predicate Resolved(ms: seq<Manifest>, sorted: seq<Manifest>, failures: seq<LoadFailure>) {
    var g, held := GraphOf(ms), FailureNames(Held(ms, failures));
    && Topological(g, Names(sorted))
    && (forall x :: x in held <==> x in g && LeadsToCycle(g, x))
    && (forall f <- Held(ms, failures) :: f.reason.DependencyCycle? && Members(f.reason.cycle) == Members(held))
    && IdleFirst(g, Names(sorted))
  }

  /** Plugins with nothing to wait for come first, in name order. */
  ghost predicate IdleFirst(g: Graph, names: seq<string>) {
    forall i, j :: 0 <= i < j < |names| && names[j] in g && g[names[j]] == {} ==>
      names[i] in g && g[names[i]] == {} && NameLeq(names[i], names[j])
  }

  lemma ReadyIsReleased(ms: seq<Manifest>, indegree: map<string, nat>, dependents: map<string, seq<string>>)
    requires Orderly(Passing(ms)) && Tabulated(GraphOf(ms), indegree, dependents)
    ensures Describes(GraphOf(ms), indegree, dependents)
    ensures var ready := Idle(NamesSorted(Passing(ms)), indegree);
      && Released(GraphOf(ms), indegree, [], ready) && NameSorted(ready)
      && (forall x :: x in ready <==> x in GraphOf(ms) && GraphOf(ms)[x] == {})
  {
    var g, ranked := GraphOf(ms), NamesSorted(Passing(ms));
    var ready := Idle(ranked, indegree);
    GraphClosed(ms);
    SortKeepsNames(Passing(ms));
    IdleIsDistinct(ranked, indegree);
    ByNameOrder();
    SortSorted(Passing(ms), ByName);
    IdleIsSorted(ranked, indegree);
    assert [] + ready == ready;
    forall x ensures x in g <==> x in Names(ranked) {
      GraphKeys(ms, x);
      assert x in Members(Names(ranked)) <==> x in Members(Names(Passing(ms)));
    }
    forall x <- g ensures indegree[x] == 0 <==> x in ready {
      var i :| 0 <= i < |ranked| && Names(ranked)[i] == x;
      assert ranked[i].name == x;
    }
  }

  lemma GraphKeys(ms: seq<Manifest>, x: string)
    ensures x in GraphOf(ms) <==> x in Names(Passing(ms))
  {
    var pending := Passing(ms);
    GraphNames(pending, Versions(ms), Members(FailureNames(Refused(ms))), |pending|, x);
    assert Names(pending)[..|pending|] == Names(pending);
  }

  ghost predicate Taken(names: seq<string>, byName: map<string, Manifest>, taken: seq<Manifest>) {
    && Distinct(Names(taken))
    && (forall x :: x in Names(taken) <==> x in names && x in byName)
    && (forall m <- taken :: m.name in byName && m == byName[m.name])
  }

  lemma HeldStandForPassing(ms: seq<Manifest>, held: seq<Manifest>, cycle: seq<string>)
    requires forall m <- held :: m in Passing(ms)
    ensures forall f <- CycleFailures(held, cycle) ::
      f.reason.DependencyCycle? && exists m :: m in Passing(ms) && StandsFor(f, m)
  {
    var cyc := CycleFailures(held, cycle);
    forall f <- cyc ensures f.reason.DependencyCycle? && exists m :: m in Passing(ms) && StandsFor(f, m) {
      var i :| 0 <= i < |cyc| && cyc[i] == f;
      assert held[i] in held && StandsFor(f, held[i]);
    }
  }

  lemma Accounts(ms: seq<Manifest>, ranked: seq<Manifest>, order: seq<string>, cycle: seq<string>,
                 held: seq<Manifest>, sorted: seq<Manifest>)
    requires forall m :: m in ranked ==> m in Passing(ms)
    requires forall x :: x in Names(ranked) <==> x in Names(Passing(ms))
    requires forall x <- order :: x in Names(ranked)
    requires forall x :: x in cycle <==> x in Names(ranked) && x !in order
    requires Taken(cycle, Lookup(ranked), held) && Taken(order, Lookup(ranked) - Members(cycle), sorted)
    ensures Accounted(ms, sorted, Refused(ms) + CycleFailures(held, cycle))
    ensures Held(ms, Refused(ms) + CycleFailures(held, cycle)) == CycleFailures(held, cycle)
    ensures FailureNames(CycleFailures(held, cycle)) == Names(held)
    ensures forall x :: x in Names(held) <==> x in cycle
    ensures forall x :: x in Names(sorted) <==> x in order
  {
    forall m <- held ensures m in Passing(ms) {
      assert m in ranked;
    }
    forall m <- sorted ensures m in Passing(ms) {
      assert m in ranked;
    }
    HeldStandForPassing(ms, held, cycle);
    assert FailureNames(CycleFailures(held, cycle)) == Names(held);
    DistinctConcat(Names(sorted), Names(held));
  }

  lemma Resolves(ms: seq<Manifest>, indegree: map<string, nat>, ready: seq<string>, order: seq<string>,
                 cycle: seq<string>, held: seq<Manifest>, sorted: seq<Manifest>)
    requires ready <= order && Ordered(GraphOf(ms), order) && NameSorted(ready)
    requires forall x :: x in ready <==> x in GraphOf(ms) && GraphOf(ms)[x] == {}
    requires Held(ms, Refused(ms) + CycleFailures(held, cycle)) == CycleFailures(held, cycle)
    requires FailureNames(CycleFailures(held, cycle)) == Names(held)
    requires forall x :: x in Names(held) <==> x in cycle
    requires forall x :: x in cycle <==> x in Names(Passing(ms)) && x !in order
    requires Names(sorted) == order
    ensures Resolved(ms, sorted, Refused(ms) + CycleFailures(held, cycle))
  {
    var g := GraphOf(ms);
    forall x ensures x in Names(held) <==> x in g && LeadsToCycle(g, x) {
      GraphKeys(ms, x);
      if x in g {
        HeldBackIffCycle(g, order, x);
      }
    }
    forall i, j | 0 <= i < j < |order| && order[j] in g && g[order[j]] == {}
      ensures order[i] in g && g[order[i]] == {} && NameLeq(order[i], order[j])
    {
      assert order[j] in ready;
      var k :| 0 <= k < |ready| && ready[k] == order[j];
      assert order[k] == ready[k];
      assert order[i] == ready[i];
    }
  }

  /**
   * Orders manifests so every plugin follows the dependencies it is wired to; plugins whose
   * requirements cannot be met and plugins caught in a cycle come back as failures.
   */
  method ResolveOrder(manifests: seq<Manifest>) returns (sorted: seq<Manifest>, failures: seq<LoadFailure>)
    ensures Accounted(manifests, sorted, failures)
    ensures Orderly(Passing(manifests)) ==> Resolved(manifests, sorted, failures)
  {
    var versions := Versions(manifests);
    var pending, refused := Partition(manifests, versions);
    var dropped := Members(FailureNames(refused));
    ghost var g := GraphOf(manifests);
    var indegree, dependents := BuildTables(pending, versions, dropped);
    var ranked := NamesSorted(pending);
    SortKeepsNames(pending);
    var ready := Idle(ranked, indegree);
    ghost var names := Members(Names(pending));
    assert Within(names, ready) by {
      assert Members(Names(ranked)) == names;
      forall x <- ready ensures x in names { assert x in Members(Names(ranked)); }
    }
    if Orderly(pending) {
      ReadyIsReleased(manifests, indegree, dependents);
    }
    var order := Drain(ready, indegree, dependents, g, names);
    var cycle := Unordered(Names(ranked), order);
    var byName := Lookup(ranked);
    var held;
    held, byName := TakeNamed(cycle, byName);
    failures := refused + CycleFailures(held, cycle);
    sorted, byName := TakeNamed(order, byName);
    forall x ensures x in Names(ranked) <==> x in Names(Passing(manifests)) {
      assert x in Members(Names(ranked)) <==> x in Members(Names(pending));
    }
    Accounts(manifests, ranked, order, cycle, held, sorted);
    if Orderly(pending) {
      forall x <- order { GraphKeys(manifests, x); }
      Resolves(manifests, indegree, ready, order, cycle, held, sorted);
    }
  }

  // ---------------------------------------------------------------- conservation

  function NamesOf(ids: seq<Ident>): (r: seq<string>)
    ensures |r| == |ids|
    ensures forall i :: 0 <= i < |ids| ==> r[i] == ids[i].name
  {
    seq(|ids|, i requires 0 <= i < |ids| => ids[i].name)
  }

  /** Two repetition-free sequences over the same members hold the same things equally often. */
  lemma SameMultiset<T>(a: seq<T>, b: seq<T>)
    requires Distinct(a) && Distinct(b) && forall x :: x in a <==> x in b
    ensures multiset(a) == multiset(b)
  {
    DistinctMultiset(a);
    DistinctMultiset(b);
    forall x ensures multiset(a)[x] == multiset(b)[x] {
      assert x in a <==> x in multiset(a);
      assert x in b <==> x in multiset(b);
    }
  }

  /** Idents with distinct names, all standing for `ms`, and covering its names, are those of `ms`. */
  lemma CoveringIdents(ms: seq<Manifest>, ids: seq<Ident>)
    requires Distinct(Names(ms)) && Distinct(NamesOf(ids))
    requires forall id <- ids :: id in Idents(ms)
    requires forall x :: x in NamesOf(ids) <==> x in Names(ms)
    ensures multiset(ids) == multiset(Idents(ms))
  {
    var mine := Idents(ms);
    assert forall i :: 0 <= i < |ms| ==> mine[i].name == Names(ms)[i];
    assert forall i :: 0 <= i < |ids| ==> ids[i].name == NamesOf(ids)[i];
    forall id ensures id in ids <==> id in mine {
      if id in mine {
        var i :| 0 <= i < |mine| && mine[i] == id;
        assert Names(ms)[i] in NamesOf(ids);
        var k :| 0 <= k < |ids| && NamesOf(ids)[k] == id.name;
        assert ids[k] in mine;
        var j :| 0 <= j < |mine| && mine[j] == ids[k];
        assert Names(ms)[i] == Names(ms)[j];
      }
    }
    SameMultiset(ids, mine);
  }

  lemma IdentOf(ms: seq<Manifest>, m: Manifest)
    requires m in ms
    ensures Ident(m.name, m.dir) in Idents(ms) && m.name in Names(ms)
  {
    var k :| 0 <= k < |ms| && ms[k] == m;
    assert Idents(ms)[k] == Ident(m.name, m.dir) && Names(ms)[k] == m.name;
  }

  /** The identities of everything the loop decided on: ordered, then held back. */
  ghost function Decided(sorted: seq<Manifest>, held: seq<LoadFailure>): seq<Ident> {
    Idents(sorted) + FailureIdents(held)
  }

  lemma DecidedNames(sorted: seq<Manifest>, held: seq<LoadFailure>)
    ensures NamesOf(Decided(sorted, held)) == Names(sorted) + FailureNames(held)
  {
  }

  lemma DecidedStandsForPassing(ms: seq<Manifest>, sorted: seq<Manifest>, held: seq<LoadFailure>, k: nat)
    requires AllPassed(ms, sorted, held) && k < |Decided(sorted, held)|
    ensures Decided(sorted, held)[k] in Idents(Passing(ms))
  {
    if k < |sorted| {
      assert sorted[k] in sorted;
      IdentOf(Passing(ms), sorted[k]);
    } else {
      var f := held[k - |sorted|];
      assert f in held;
      var m :| m in Passing(ms) && StandsFor(f, m);
      IdentOf(Passing(ms), m);
    }
  }

  lemma ConservesDecided(ms: seq<Manifest>, sorted: seq<Manifest>, held: seq<LoadFailure>)
    ensures multiset(Idents(sorted)) + multiset(FailureIdents(Refused(ms) + held)) == multiset(Idents(ms))
      <==> multiset(Decided(sorted, held)) == multiset(Idents(Passing(ms)))
  {
    var refused, a, b := Refused(ms), multiset(Idents(sorted)), multiset(FailureIdents(held));
    var r := multiset(FailureIdents(refused));
    CheckConserves(ms, Versions(ms), |ms|);
    assert ms[..|ms|] == ms;
    assert FailureIdents(refused + held) == FailureIdents(refused) + FailureIdents(held);
    assert multiset(FailureIdents(refused + held)) == r + b;
    CancelMultiset(a, b, r, multiset(Idents(Passing(ms))));
  }

  lemma CancelMultiset<T>(a: multiset<T>, b: multiset<T>, r: multiset<T>, c: multiset<T>)
    ensures a + (r + b) == c + r <==> a + b == c
  {
    assert (a + b) + r == a + (r + b);
    assert ((a + b) + r) - r == a + b && (c + r) - r == c;
  }

  /**
   * Every manifest given ends up in exactly one of the two results if and only if no two
   * manifests that pass the requirement check share a name.
   */
  lemma ConservedIffDistinct(ms: seq<Manifest>, sorted: seq<Manifest>, failures: seq<LoadFailure>)
    requires Accounted(ms, sorted, failures)
    ensures multiset(Idents(sorted)) + multiset(FailureIdents(failures)) == multiset(Idents(ms))
      <==> Distinct(Names(Passing(ms)))
  {
    var passing, ids := Passing(ms), Decided(sorted, Held(ms, failures));
    ConservesDecided(ms, sorted, Held(ms, failures));
    DecidedNames(sorted, Held(ms, failures));
    if Distinct(Names(passing)) {
      forall id <- ids ensures id in Idents(passing) {
        var k :| 0 <= k < |ids| && ids[k] == id;
        DecidedStandsForPassing(ms, sorted, Held(ms, failures), k);
      }
      CoveringIdents(passing, ids);
    } else {
      MemberCount(Names(passing));
      MemberCount(NamesOf(ids));
      assert Members(NamesOf(ids)) == Members(Names(passing));
      assert |multiset(ids)| < |multiset(Idents(passing))|;
    }
  }

  /** Two plugins of one name, neither of which asks for anything: one of them is lost without a trace. */
  lemma TwinsLoseOne(a: Manifest, b: Manifest, sorted: seq<Manifest>, failures: seq<LoadFailure>)
    requires a.name == b.name && a.dependencies == b.dependencies == []
    requires Accounted([a, b], sorted, failures)
    ensures multiset(Idents(sorted)) + multiset(FailureIdents(failures)) != multiset(Idents([a, b]))
  {
    var ms := [a, b];
    var versions := Versions(ms);
    assert Passes(a, versions) && Passes(b, versions);
    assert PassingUpTo(ms, versions, 1) == [a];
    assert PassingUpTo(ms, versions, 2) == [a] + [b];
    assert Names(Passing(ms))[0] == Names(Passing(ms))[1];
    ConservedIffDistinct(ms, sorted, failures);
  }

  lemma AloneWaitsForNothing(m: Manifest)
    requires m.dependencies == []
    ensures Passing([m]) == [m] && Refused([m]) == [] && GraphOf([m]) == map[m.name := {}]
    ensures Names([m]) == [m.name] && Orderly([m])
  {
    var versions := Versions([m]);
    assert PassingUpTo([m], versions, 0) == [] && RefusedUpTo([m], versions, 0) == [];
    assert PassingUpTo([m], versions, 1) == [m] && RefusedUpTo([m], versions, 1) == [];
    assert Members(FailureNames([])) == {} && Members(Blocking([], versions, {})) == {};
    assert GraphUpTo([m], versions, {}, 0) == map[];
    assert GraphUpTo([m], versions, {}, 1) == map[m.name := {}];
  }

  lemma FirstEdge(g: Graph, w: seq<string>)
    ensures Walk(g, w) && |w| > 1 ==> w[0] in g && w[1] in g[w[0]]
  {
  }

  lemma FirstTwoDiffer(ms: seq<Manifest>)
    ensures Distinct(Names(ms)) && |ms| > 1 ==> exists a <- ms, b <- ms :: a.name != b.name
  {
    if |ms| > 1 {
      assert ms[0] in ms && ms[1] in ms && Names(ms)[0] == ms[0].name && Names(ms)[1] == ms[1].name;
    }
  }

  lemma HeadIsNamed(fs: seq<LoadFailure>)
    ensures fs != [] ==> fs[0].name in FailureNames(fs)
  {
    if fs != [] {
      assert FailureNames(fs)[0] == fs[0].name;
    }
  }

  lemma NoEdgesNoCycle(name: string, x: string)
    ensures !LeadsToCycle(map[name := {}], x)
  {
    forall w ensures !Lasso(map[name := {}], w, x) {
      FirstEdge(map[name := {}], w);
    }
  }

  /** A plugin that asks for nothing is ordered. */
  lemma AloneIsOrdered(m: Manifest, sorted: seq<Manifest>, failures: seq<LoadFailure>)
    requires m.dependencies == [] && Accounted([m], sorted, failures)
    requires Orderly(Passing([m])) ==> Resolved([m], sorted, failures)
    ensures sorted == [m] && failures == []
  {
    AloneWaitsForNothing(m);
    hide GraphOf, Passing, Refused, LeadsToCycle, Topological, IdleFirst;
    var held := Held([m], failures);
    assert held == failures;
    HeadIsNamed(held);
    if held != [] {
      NoEdgesNoCycle(m.name, held[0].name);
    }
    assert Names(sorted) + FailureNames(held) == Names(sorted);
    assert Names([m])[0] in Names(sorted);
    FirstTwoDiffer(sorted);
    assert sorted[0] in sorted;
  }

  // ---------------------------------------------------------------- order, read off the manifests

  lemma {:induction false} GraphEdges(pending: seq<Manifest>, versions: map<string, Version>, dropped: set<string>,
                                      k: nat, i: nat)
    requires i < k <= |pending| && Distinct(Names(pending))
    ensures pending[i].name in GraphUpTo(pending, versions, dropped, k)
    ensures GraphUpTo(pending, versions, dropped, k)[pending[i].name]
      == Members(Blocking(pending[i].dependencies, versions, dropped))
  {
    if i < k - 1 {
      GraphEdges(pending, versions, dropped, k - 1, i);
      assert Names(pending)[i] != Names(pending)[k - 1];
    }
  }

  lemma {:induction false} RefusedAreGiven(ms: seq<Manifest>, versions: map<string, Version>, k: nat, x: string)
    requires k <= |ms| && Distinct(Names(ms))
    requires x in FailureNames(RefusedUpTo(ms, versions, k))
    ensures exists i :: 0 <= i < k && ms[i].name == x && !Passes(ms[i], versions)
  {
    if CheckDependencies(ms[k - 1].dependencies, versions).None? || x != ms[k - 1].name {
      var now, before := FailureNames(RefusedUpTo(ms, versions, k)), FailureNames(RefusedUpTo(ms, versions, k - 1));
      var j :| 0 <= j < |now| && now[j] == x;
      assert before[j] == x;
      RefusedAreGiven(ms, versions, k - 1, x);
    }
  }

  /** With distinct names, a plugin that passed is one whose edges count. */
  lemma PassingIsCounted(ms: seq<Manifest>, x: string)
    requires Distinct(Names(ms)) && x in Names(Passing(ms))
    ensures x in Versions(ms) && x !in Members(FailureNames(Refused(ms)))
  {
    var m := PassingNamed(ms, x);
    PositionKeys(ms, x);
    var q :| 0 <= q < |ms| && ms[q] == m;
    forall r | 0 <= r < |ms| && ms[r].name == x ensures Passes(ms[r], Versions(ms)) {
      OneOfAName(ms, q, r);
    }
    if x in FailureNames(Refused(ms)) {
      RefusedAreGiven(ms, Versions(ms), |ms|, x);
      assert false;
    }
  }

  lemma OneOfAName(ms: seq<Manifest>, i: nat, j: nat)
    requires Distinct(Names(ms)) && i < |ms| && j < |ms| && ms[i].name == ms[j].name
    ensures i == j
  {
    assert Names(ms)[i] == Names(ms)[j];
  }

  lemma PassingNamed(ms: seq<Manifest>, x: string) returns (m: Manifest)
    requires x in Names(Passing(ms))
    ensures m in ms && m.name == x && Passes(m, Versions(ms)) && x in Names(ms)
  {
    var pending := Passing(ms);
    var p :| 0 <= p < |pending| && Names(pending)[p] == x;
    m := pending[p];
    PassingMembers(ms, Versions(ms), |ms|, m);
    assert ms[..|ms|] == ms;
    IdentOf(ms, m);
  }

  /**
   * In a root with distinct names, every ordered plugin follows each of its dependencies
   * that the root holds and that passed the check itself.
   */
  lemma DependenciesComeFirst(ms: seq<Manifest>, sorted: seq<Manifest>, failures: seq<LoadFailure>, i: nat,
                              d: Dependency)
    requires Distinct(Names(ms)) && Orderly(Passing(ms))
    requires Accounted(ms, sorted, failures) && Resolved(ms, sorted, failures)
    requires i < |sorted| && d in sorted[i].dependencies && d.name in Names(Passing(ms))
    ensures d.name in Names(sorted)[..i]
  {
    var pending, m := Passing(ms), sorted[i];
    assert m in sorted;
    var k :| 0 <= k < |pending| && pending[k] == m;
    GraphEdges(pending, Versions(ms), Members(FailureNames(Refused(ms))), |pending|, k);
    PassingIsCounted(ms, d.name);
    var j :| 0 <= j < |m.dependencies| && m.dependencies[j] == d;
    assert Follows(GraphOf(ms), Names(sorted), i);
  }
}
