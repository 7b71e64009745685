/**
 * What ordering comes to, read off the manifests alone: whose requirements are met by the versions
 * the root declares, who waits for whom, and who is left waiting in a circle.
 */
module Declared {
  import opened Wrappers
  import opened Distinctness
  import opened Manifests
  import opened Failures
  import opened Kahn
  import opened Resolution

  // ---------------------------------------------------------------- requirements

  /** The root offers `v` under this name: the last manifest of that name counts, and no version is version 0. */
  ghost predicate Offers(ms: seq<Manifest>, name: string, v: Version) {
    exists k :: 0 <= k < |ms| && OffersAt(ms, name, v, k)
  }

  ghost predicate OffersAt(ms: seq<Manifest>, name: string, v: Version, k: nat)
    requires k < |ms|
  {
    && ms[k].name == name && (forall l :: k < l < |ms| ==> ms[l].name != name)
    && HasVersion(ms[k], v)
  }

  /** A dependency the root has is there at a version it accepts; one it has not is optional. */
  ghost predicate Met(ms: seq<Manifest>, d: Dependency) {
    if exists n <- ms :: n.name == d.name then exists v :: Offers(ms, d.name, v) && d.accepts(v) else d.optional
  }

  ghost predicate AllMet(ms: seq<Manifest>, m: Manifest) {
    forall d <- m.dependencies :: Met(ms, d)
  }

  /** The reason names the first dependency that is not met, and whether it is there at all. */
  ghost predicate ReasonFor(ms: seq<Manifest>, m: Manifest, reason: FailureReason) {
    exists i :: 0 <= i < |m.dependencies| && ReasonAt(ms, m, reason, i)
  }

  ghost predicate ReasonAt(ms: seq<Manifest>, m: Manifest, reason: FailureReason, i: nat)
    requires i < |m.dependencies|
  {
    var d := m.dependencies[i];
    && !Met(ms, d) && (forall j :: 0 <= j < i ==> Met(ms, m.dependencies[j]))
    && reason ==
      if exists n <- ms :: n.name == d.name then IncompatibleDependency(d.name) else MissingDependency(d.name)
  }

  lemma {:induction false} PositionIsLast(ms: seq<Manifest>, k: nat, x: string)
    requires k <= |ms|
    ensures x in PositionUpTo(ms, k) ==>
      0 <= PositionUpTo(ms, k)[x] < k && forall l :: PositionUpTo(ms, k)[x] < l < k ==> ms[l].name != x
  {
    if k > 0 {
      PositionIsLast(ms, k - 1, x);
    }
  }

  lemma VersionsAreOffered(ms: seq<Manifest>, x: string)
    ensures x in Versions(ms) <==> exists n <- ms :: n.name == x
    ensures x in Versions(ms) ==> forall v :: Offers(ms, x, v) <==> v == Versions(ms)[x]
  {
    PositionIsLast(ms, |ms|, x);
    if n :| n in ms && n.name == x {
      var i :| 0 <= i < |ms| && ms[i] == n;
      assert ms[i].name in Position(ms);
    }
    if x in Versions(ms) {
      var at := Position(ms)[x];
      assert ms[at] in ms && OffersAt(ms, x, Versions(ms)[x], at);
      forall v | Offers(ms, x, v) ensures v == Versions(ms)[x] {
        var k :| 0 <= k < |ms| && OffersAt(ms, x, v, k);
        assert k == at;
      }
    }
  }

  lemma SatisfiedIffMet(ms: seq<Manifest>, d: Dependency)
    ensures Satisfied(d, Versions(ms)) <==> Met(ms, d)
  {
    VersionsAreOffered(ms, d.name);
    hide Versions, Offers;
    if d.name in Versions(ms) && d.accepts(Versions(ms)[d.name]) {
      assert Offers(ms, d.name, Versions(ms)[d.name]);
    }
  }

  /**
   * Whatever the names: a manifest passes the check exactly when each of its dependencies is met
   * by what the root declares, and is refused for the first that is not.
   */
  lemma CheckedAsDeclared(ms: seq<Manifest>, m: Manifest)
    ensures CheckDependencies(m.dependencies, Versions(ms)).None? <==> AllMet(ms, m)
    ensures CheckDependencies(m.dependencies, Versions(ms)).Some? ==>
      ReasonFor(ms, m, CheckDependencies(m.dependencies, Versions(ms)).value)
  {
    var deps, versions := m.dependencies, Versions(ms);
    CheckFindsFirstUnmet(deps, versions);
    forall d ensures Satisfied(d, versions) <==> Met(ms, d) {
      SatisfiedIffMet(ms, d);
    }
    hide CheckDependencies, Versions, Satisfied, Met;
    var refusal := CheckDependencies(deps, versions);
    if refusal.Some? {
      var i :| 0 <= i < |deps| && !Satisfied(deps[i], versions) &&
        (forall j :: 0 <= j < i ==> Satisfied(deps[j], versions)) &&
        refusal.value ==
          if deps[i].name in versions then IncompatibleDependency(deps[i].name) else MissingDependency(deps[i].name);
      VersionsAreOffered(ms, deps[i].name);
      assert ReasonAt(ms, m, refusal.value, i);
      assert deps[i] in deps;
    } else {
      forall d <- deps ensures Met(ms, d) {
        var i :| 0 <= i < |deps| && deps[i] == d;
      }
    }
  }

  // ---------------------------------------------------------------- the graph

  /** A plugin of this name has all its requirements met. */
  ghost predicate Stands(ms: seq<Manifest>, x: string) {
    exists n <- ms :: n.name == x && AllMet(ms, n)
  }

  /** From each plugin whose requirements are met to those of its dependencies of which the same is true. */
  ghost function DeclaredGraph(ms: seq<Manifest>): Graph
    requires Distinct(Names(ms))
  {
    NameTells(ms);
    map m | m in ms && AllMet(ms, m) :: m.name := WaitsFor(ms, m)
  }

  ghost function WaitsFor(ms: seq<Manifest>, m: Manifest): set<string> {
    set d | d in m.dependencies && Stands(ms, d.name) :: d.name
  }

  lemma NameTells(ms: seq<Manifest>)
    requires Distinct(Names(ms))
    ensures forall m, n :: m in ms && n in ms && m.name == n.name ==> m == n
  {
    forall m, n | m in ms && n in ms && m.name == n.name ensures m == n {
      var i :| 0 <= i < |ms| && ms[i] == m;
      var j :| 0 <= j < |ms| && ms[j] == n;
      OneOfAName(ms, i, j);
    }
  }

  lemma PassingAsDeclared(ms: seq<Manifest>, m: Manifest)
    ensures m in Passing(ms) <==> m in ms && AllMet(ms, m)
  {
    PassingMembers(ms, Versions(ms), |ms|, m);
    CheckedAsDeclared(ms, m);
    assert ms[..|ms|] == ms;
  }

  lemma StandsIff(ms: seq<Manifest>, x: string)
    ensures Stands(ms, x) <==> x in Names(Passing(ms))
  {
    var pending := Passing(ms);
    hide Passing, AllMet;
    forall m ensures m in pending <==> m in ms && AllMet(ms, m) {
      PassingAsDeclared(ms, m);
    }
    if Stands(ms, x) {
      var n :| n in ms && n.name == x && AllMet(ms, n);
      var i :| 0 <= i < |pending| && pending[i] == n;
      assert Names(pending)[i] == x;
    }
    if x in Names(pending) {
      var i :| 0 <= i < |pending| && Names(pending)[i] == x;
      assert pending[i] in pending;
    }
  }

  /** A dependency counts exactly when the plugin it names is there and passed the check itself. */
  lemma CountsIff(ms: seq<Manifest>, x: string)
    requires Distinct(Names(ms))
    ensures x in Versions(ms) && x !in Members(FailureNames(Refused(ms))) <==> Stands(ms, x)
  {
    StandsIff(ms, x);
    hide Stands;
    if x in Names(Passing(ms)) {
      PassingIsCounted(ms, x);
    } else if x in Versions(ms) {
      assert ms[..|ms|] == ms;
      PresentOrDropped(ms, Versions(ms), |ms|, ms[Position(ms)[x]]);
    }
  }

  lemma BlockingAsDeclared(ms: seq<Manifest>, m: Manifest)
    requires Distinct(Names(ms))
    ensures Members(Blocking(m.dependencies, Versions(ms), Members(FailureNames(Refused(ms))))) == WaitsFor(ms, m)
  {
    var deps, versions, dropped := m.dependencies, Versions(ms), Members(FailureNames(Refused(ms)));
    var blocking := Blocking(deps, versions, dropped);
    forall x ensures x in versions && x !in dropped <==> Stands(ms, x) {
      CountsIff(ms, x);
    }
    hide Versions, Refused, Stands, Blocking, Members;
    forall x ensures x in blocking <==> x in WaitsFor(ms, m) {
      if x in blocking {
        var i :| 0 <= i < |deps| && deps[i].name == x;
        assert deps[i] in deps;
      }
      if x in WaitsFor(ms, m) {
        var d :| d in deps && Stands(ms, d.name) && d.name == x;
        var i :| 0 <= i < |deps| && deps[i] == d;
      }
    }
  }

  /** The edges manifests are ordered by are those they declare. */
  lemma GraphAsDeclared(ms: seq<Manifest>)
    requires Distinct(Names(ms))
    ensures GraphOf(ms) == DeclaredGraph(ms)
  {
    var g, h := GraphOf(ms), DeclaredGraph(ms);
    PassingDistinctNames(ms);
    hide GraphOf, DeclaredGraph, AllMet, WaitsFor, Passing;
    forall x ensures (x in g <==> x in h) && (x in h ==> g[x] == h[x]) {
      NodeAsDeclared(ms, x);
    }
    SameGraph(g, h);
  }

  lemma SameGraph(g: Graph, h: Graph)
    requires forall x :: (x in g <==> x in h) && (x in h ==> g[x] == h[x])
    ensures g == h
  {
    assert g.Keys == h.Keys;
  }

  lemma NodeAsDeclared(ms: seq<Manifest>, x: string)
    requires Distinct(Names(ms)) && Distinct(Names(Passing(ms)))
    ensures var (g, h) := (GraphOf(ms), DeclaredGraph(ms)); (x in g <==> x in h) && (x in h ==> g[x] == h[x])
  {
    GraphKeys(ms, x);
    StandsIff(ms, x);
    DeclaredNode(ms, x);
    hide GraphOf, DeclaredGraph, AllMet, WaitsFor, Passing;
    if x in DeclaredGraph(ms) {
      var m :| m in ms && AllMet(ms, m) && m.name == x;
      DeclaredEdges(ms, m);
      PassingAsDeclared(ms, m);
      EdgesAsDeclared(ms, m);
    }
  }

  lemma DeclaredNode(ms: seq<Manifest>, x: string)
    requires Distinct(Names(ms))
    ensures x in DeclaredGraph(ms) <==> Stands(ms, x)
  {
    hide AllMet, WaitsFor;
  }

  lemma DeclaredEdges(ms: seq<Manifest>, m: Manifest)
    requires Distinct(Names(ms)) && m in ms && AllMet(ms, m)
    ensures m.name in DeclaredGraph(ms) && DeclaredGraph(ms)[m.name] == WaitsFor(ms, m)
  {
    NameTells(ms);
    hide AllMet, WaitsFor;
  }

  lemma EdgesAsDeclared(ms: seq<Manifest>, m: Manifest)
    requires Distinct(Names(ms)) && Distinct(Names(Passing(ms))) && m in Passing(ms)
    ensures m.name in GraphOf(ms) && GraphOf(ms)[m.name] == WaitsFor(ms, m)
  {
    var pending := Passing(ms);
    var k :| 0 <= k < |pending| && pending[k] == m;
    GraphEdges(pending, Versions(ms), Members(FailureNames(Refused(ms))), |pending|, k);
    BlockingAsDeclared(ms, m);
  }

  lemma PassingDistinctNames(ms: seq<Manifest>)
    requires Distinct(Names(ms))
    ensures Distinct(Names(Passing(ms)))
  {
    CheckConserves(ms, Versions(ms), |ms|);
    PassingSub(ms, Versions(ms), |ms|);
  }

  lemma {:induction false} PassingSub(ms: seq<Manifest>, versions: map<string, Version>, k: nat)
    requires Distinct(Names(ms)) && k <= |ms|
    ensures Distinct(Names(PassingUpTo(ms, versions, k)))
    ensures forall x <- Names(PassingUpTo(ms, versions, k)) :: x in Names(ms)[..k]
  {
    if k > 0 {
      PassingSub(ms, versions, k - 1);
      var before, name := PassingUpTo(ms, versions, k - 1), ms[k - 1].name;
      assert Names(ms)[..k] == Names(ms)[..k - 1] + [name] && Names(ms)[k - 1] == name;
      assert Names(before + [ms[k - 1]]) == Names(before) + [name];
      assert name !in Names(ms)[..k - 1];
    }
  }

  // ---------------------------------------------------------------- the result

  /** How the failure of one manifest is reported, if it fails. */
  ghost predicate FailsAs(ms: seq<Manifest>, m: Manifest, f: LoadFailure)
    requires Distinct(Names(ms))
  {
    && f.name == m.name && f.dir == m.dir
    && if AllMet(ms, m) then LeadsToCycle(DeclaredGraph(ms), m.name) && f.reason.DependencyCycle?
       else ReasonFor(ms, m, f.reason)
  }

  lemma {:induction false} RefusedMembers(ms: seq<Manifest>, versions: map<string, Version>, k: nat, f: LoadFailure)
    requires k <= |ms|
    ensures f in RefusedUpTo(ms, versions, k) <==>
      exists i :: 0 <= i < k && CheckDependencies(ms[i].dependencies, versions) == Some(f.reason) &&
        f.name == ms[i].name && f.dir == ms[i].dir
  {
    hide CheckDependencies;
    if k > 0 {
      RefusedMembers(ms, versions, k - 1, f);
    }
  }

  /** What ordering returns, over the graph it orders by. */
  ghost predicate Ordering(ms: seq<Manifest>, sorted: seq<Manifest>, failures: seq<LoadFailure>, held: seq<LoadFailure>)
    requires Distinct(Names(ms))
  {
    && failures == Refused(ms) + held
    && Distinct(Names(sorted) + FailureNames(held))
    && (forall x :: x in Names(sorted) + FailureNames(held) <==> Stands(ms, x))
    && (forall m <- sorted :: m in ms && AllMet(ms, m))
    && (forall f <- held :: f.reason.DependencyCycle? && exists m <- ms :: AllMet(ms, m) && StandsFor(f, m))
    && (forall x :: x in FailureNames(held) <==> Stands(ms, x) && LeadsToCycle(DeclaredGraph(ms), x))
  }

  lemma IsOrdering(ms: seq<Manifest>, sorted: seq<Manifest>, failures: seq<LoadFailure>)
    requires Distinct(Names(ms)) && GraphOf(ms) == DeclaredGraph(ms)
    requires Accounted(ms, sorted, failures) && Resolved(ms, sorted, failures)
    ensures Ordering(ms, sorted, failures, Held(ms, failures))
  {
    forall m ensures m in Passing(ms) <==> m in ms && AllMet(ms, m) {
      PassingAsDeclared(ms, m);
    }
    forall x ensures x in GraphOf(ms) <==> Stands(ms, x) {
      GraphKeys(ms, x);
      StandsIff(ms, x);
    }
    forall x ensures x in Names(Passing(ms)) <==> Stands(ms, x) {
      StandsIff(ms, x);
    }
    hide Passing, AllMet, Stands;
    OverTheGraph(ms, sorted, failures);
  }

  lemma OverTheGraph(ms: seq<Manifest>, sorted: seq<Manifest>, failures: seq<LoadFailure>)
    requires Distinct(Names(ms)) && GraphOf(ms) == DeclaredGraph(ms)
    requires Accounted(ms, sorted, failures) && Resolved(ms, sorted, failures)
    requires forall m :: m in Passing(ms) <==> m in ms && AllMet(ms, m)
    requires forall x :: x in GraphOf(ms) <==> Stands(ms, x)
    requires forall x :: x in Names(Passing(ms)) <==> Stands(ms, x)
    ensures Ordering(ms, sorted, failures, Held(ms, failures))
  {
    hide Passing, Refused, GraphOf, DeclaredGraph, AllMet, LeadsToCycle, Stands, Topological, IdleFirst, StandsFor;
    hide Distinct, Held;
  }

  lemma SortedAsDeclared(ms: seq<Manifest>, sorted: seq<Manifest>, failures: seq<LoadFailure>, held: seq<LoadFailure>,
                         m: Manifest)
    requires Distinct(Names(ms)) && Ordering(ms, sorted, failures, held)
    ensures m in sorted <==> m in ms && AllMet(ms, m) && !LeadsToCycle(DeclaredGraph(ms), m.name)
  {
    hide AllMet, LeadsToCycle, DeclaredGraph;
    NameTells(ms);
    if m in sorted {
      var i :| 0 <= i < |sorted| && sorted[i] == m;
      assert Names(sorted)[i] == m.name;
      NotHeld(Names(sorted), FailureNames(held), m.name);
    } else if m in ms && AllMet(ms, m) {
      assert Stands(ms, m.name);
      NamedIsThere(ms, sorted, m);
    }
  }

  lemma NamedIsThere(ms: seq<Manifest>, sorted: seq<Manifest>, m: Manifest)
    requires Distinct(Names(ms)) && m in ms && forall n <- sorted :: n in ms
    ensures m.name in Names(sorted) ==> m in sorted
  {
    NameTells(ms);
    if m.name in Names(sorted) {
      var i :| 0 <= i < |sorted| && Names(sorted)[i] == m.name;
      assert sorted[i] in sorted;
    }
  }

  lemma NotHeld(a: seq<string>, b: seq<string>, x: string)
    requires Distinct(a + b)
    ensures !(x in a && x in b)
  {
    forall i, j | 0 <= i < |a| && 0 <= j < |b| ensures a[i] != b[j] {
      assert (a + b)[i] != (a + b)[|a| + j];
    }
  }

  lemma FailureAsDeclared(ms: seq<Manifest>, sorted: seq<Manifest>, failures: seq<LoadFailure>,
                          held: seq<LoadFailure>, f: LoadFailure)
    requires Distinct(Names(ms)) && Ordering(ms, sorted, failures, held) && f in failures
    ensures exists m <- ms :: FailsAs(ms, m, f)
  {
    hide AllMet, LeadsToCycle, DeclaredGraph, ReasonFor, CheckDependencies;
    if f in Refused(ms) {
      RefusedMembers(ms, Versions(ms), |ms|, f);
      var i :| 0 <= i < |ms| && CheckDependencies(ms[i].dependencies, Versions(ms)) == Some(f.reason) &&
        f.name == ms[i].name && f.dir == ms[i].dir;
      CheckedAsDeclared(ms, ms[i]);
      assert ms[i] in ms && FailsAs(ms, ms[i], f);
    } else {
      assert f in held;
      var i :| 0 <= i < |held| && held[i] == f;
      assert FailureNames(held)[i] == f.name;
      var m :| m in ms && AllMet(ms, m) && StandsFor(f, m);
      assert FailsAs(ms, m, f);
    }
  }

  lemma UnsortedFails(ms: seq<Manifest>, sorted: seq<Manifest>, failures: seq<LoadFailure>, held: seq<LoadFailure>,
                      m: Manifest)
    requires Distinct(Names(ms)) && Ordering(ms, sorted, failures, held) && m in ms && m !in sorted
    ensures exists f <- failures :: FailsAs(ms, m, f)
  {
    SortedAsDeclared(ms, sorted, failures, held, m);
    hide AllMet, LeadsToCycle, DeclaredGraph, ReasonFor, CheckDependencies;
    if AllMet(ms, m) {
      assert Stands(ms, m.name);
      var i :| 0 <= i < |held| && FailureNames(held)[i] == m.name;
      var f := held[i];
      assert f in held;
      var n :| n in ms && AllMet(ms, n) && StandsFor(f, n);
      NameTells(ms);
      assert n == m && FailsAs(ms, m, f) && f in failures;
    } else {
      CheckedAsDeclared(ms, m);
      var i :| 0 <= i < |ms| && ms[i] == m;
      var f := LoadFailure(m.name, m.dir, CheckDependencies(m.dependencies, Versions(ms)).value);
      RefusedMembers(ms, Versions(ms), |ms|, f);
      assert FailsAs(ms, m, f) && f in Refused(ms) && f in failures;
    }
  }

  /**
   * For a root of distinct names: a manifest is ordered exactly when every requirement it declares
   * is met by what the root declares, and following declared dependencies from it never runs into a
   * cycle. Every other one fails, and every failure is one of these, for its own reason. Each
   * ordered plugin comes after every one it waits for.
   */
  lemma OrderAsDeclared(ms: seq<Manifest>, sorted: seq<Manifest>, failures: seq<LoadFailure>)
    requires Distinct(Names(ms)) && forall m <- ms :: m.Keyed()
    requires Accounted(ms, sorted, failures)
    requires Orderly(Passing(ms)) ==> Resolved(ms, sorted, failures)
    ensures forall m :: m in sorted <==> m in ms && AllMet(ms, m) && !LeadsToCycle(DeclaredGraph(ms), m.name)
    ensures forall f <- failures :: exists m <- ms :: FailsAs(ms, m, f)
    ensures forall m <- ms :: m in sorted || exists f <- failures :: FailsAs(ms, m, f)
    ensures Topological(DeclaredGraph(ms), Names(sorted))
  {
    var held := Held(ms, failures);
    GraphAsDeclared(ms);
    PassingDistinctNames(ms);
    forall m <- Passing(ms) ensures m.Keyed() {
      PassingAsDeclared(ms, m);
    }
    IsOrdering(ms, sorted, failures);
    hide Accounted, Ordering, Passing, AllMet, DeclaredGraph, LeadsToCycle, FailsAs, Held, GraphOf;
    forall m ensures m in sorted <==> m in ms && AllMet(ms, m) && !LeadsToCycle(DeclaredGraph(ms), m.name) {
      SortedAsDeclared(ms, sorted, failures, held, m);
    }
    forall f <- failures ensures exists m <- ms :: FailsAs(ms, m, f) {
      FailureAsDeclared(ms, sorted, failures, held, f);
    }
    forall m <- ms ensures m in sorted || exists f <- failures :: FailsAs(ms, m, f) {
      if m !in sorted {
        UnsortedFails(ms, sorted, failures, held, m);
      }
    }
  }
}
