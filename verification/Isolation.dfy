/**
 * How far a failure reaches: when a plugin's fate in a load hangs on nothing but itself and what
 * it depends on, and when a panic elsewhere can decide it.
 */
module Isolation {
  import opened Wrappers
  import opened Distinctness
  import opened Manifests
  import opened Components
  import opened LuaBackends

  // ---------------------------------------------------------------- what a plugin depends on

  /** `s` holds, with every plugin of the group in it, all of that plugin's dependencies. */
  ghost predicate DependencyClosed(ms: seq<Manifest>, s: iset<string>) {
    forall i, k :: 0 <= i < |ms| && ms[i].name in s && 0 <= k < |ms[i].dependencies| ==>
      ms[i].dependencies[k].name in s
  }

  /** Everything `x` depends on, directly or not, and `x` itself. */
  ghost function Upstream(ms: seq<Manifest>, x: string): iset<string> {
    iset y | Needs(ms, x, y)
  }

  ghost predicate Needs(ms: seq<Manifest>, x: string, y: string) {
    exists p: seq<string> :: DownFrom(ms, p, x, y)
  }

  ghost predicate DownFrom(ms: seq<Manifest>, p: seq<string>, x: string, y: string) {
    && |p| > 0 && p[0] == x && p[|p| - 1] == y
    && forall k :: 0 <= k < |p| - 1 ==> DependsOn(ms, p[k], p[k + 1])
  }

  ghost predicate DependsOn(ms: seq<Manifest>, a: string, b: string) {
    exists i, k :: 0 <= i < |ms| && 0 <= k < |ms[i].dependencies| && ms[i].name == a && ms[i].dependencies[k].name == b
  }

  lemma UpstreamClosed(ms: seq<Manifest>, x: string)
    ensures x in Upstream(ms, x) && DependencyClosed(ms, Upstream(ms, x))
  {
    assert DownFrom(ms, [x], x, x);
    forall i, k | 0 <= i < |ms| && ms[i].name in Upstream(ms, x) && 0 <= k < |ms[i].dependencies|
      ensures ms[i].dependencies[k].name in Upstream(ms, x)
    {
      var y := ms[i].dependencies[k].name;
      var p :| DownFrom(ms, p, x, ms[i].name);
      assert DependsOn(ms, ms[i].name, y);
      var q := p + [y];
      forall n | 0 <= n < |q| - 1 ensures DependsOn(ms, q[n], q[n + 1]) {
        if n < |p| - 1 {
          assert DependsOn(ms, p[n], p[n + 1]);
        }
      }
      assert DownFrom(ms, q, x, y);
    }
  }

  // ---------------------------------------------------------------- what can reach a plugin

  /** A world in which every plugin that is run builds and publishes exports. */
  ghost function Benign(creates: bool): World {
    World(true, creates, (x, wired) => Built(true))
  }

  /** Member `i` can be run at all: it is when everything goes well. */
  ghost predicate Live(g: Group, creates: bool, i: nat)
    requires i < |g.ms|
  {
    Fate(g, Benign(creates), i) == Built(true)
  }

  /** Member `x` declares member `k` as a dependency. */
  ghost predicate Uses(g: Group, x: nat, k: nat)
    requires x < |g.ms| && k < |g.ms|
  {
    exists n :: 0 <= n < |g.ms[x].dependencies| && g.ms[x].dependencies[n].name == g.ms[k].name
  }

  /** What member `k` comes to can reach `x` along dependencies, each handed on by a member that can be run. */
  ghost predicate Feeds(g: Group, creates: bool, k: nat, x: nat)
    requires k < |g.ms| && x < |g.ms|
    decreases x
  {
    k == x || exists m: nat :: m < x && Uses(g, x, m) && Live(g, creates, m) && Feeds(g, creates, k, m)
  }

  /** Member `m` can be run in the state of `x`, or of something that feeds it, before that is. */
  ghost predicate Spoils(g: Group, creates: bool, m: nat, x: nat)
    requires m < |g.ms| && x < |g.ms|
  {
    Live(g, creates, m) && exists k: nat :: SpoilsAt(g, creates, m, k, x)
  }

  ghost predicate SpoilsAt(g: Group, creates: bool, m: nat, k: nat, x: nat)
    requires m < |g.ms| && x < |g.ms|
  {
    m < k <= x && Feeds(g, creates, k, x) && SameState(g, g.ms[m].name, g.ms[k].name)
  }

  /** A panic outside `s` can decide whether `x` is run, by itself or by way of other panics it prevents. */
  ghost predicate Exposed(g: Group, creates: bool, s: iset<string>, x: nat)
    requires x < |g.ms|
    decreases x
  {
    exists m: nat :: m < x && Spoils(g, creates, m, x) && (g.ms[m].name !in s || Exposed(g, creates, s, m))
  }

  /** The two worlds treat everything in `s` alike. */
  ghost predicate Alike(u: World, v: World, creates: bool, s: iset<string>) {
    u.creates == v.creates == creates && forall x, wired :: x in s ==> u.build(x, wired) == v.build(x, wired)
  }

  /** Whatever the plugins outside `s` do, it makes no difference to member `i`. */
  ghost predicate Isolated(g: Group, creates: bool, s: iset<string>, i: nat)
    requires i < |g.ms|
  {
    forall u, v :: Alike(u, v, creates, s) ==> Fate(g, u, i) == Fate(g, v, i)
  }

  // ---------------------------------------------------------------- nothing is run that cannot be

  lemma {:induction false} BenignNeverPanics(g: Group, creates: bool, i: nat)
    requires i < |g.ms|
    ensures Fate(g, Benign(creates), i) != Panicked && !SpoiltBefore(g, Benign(creates), i)
    ensures Live(g, creates, i) <==> Runs(g, Benign(creates), i)
  {
  }

  lemma SameName(g: Group, j: nat, k: nat)
    requires Distinct(Names(g.ms)) && j < |g.ms| && k < |g.ms| && g.ms[j].name == g.ms[k].name
    ensures j == k
  {
    assert Names(g.ms)[j] == Names(g.ms)[k];
  }

  /** What is run in some world is run when everything goes well. */
  lemma {:induction false} RunIsLive(g: Group, w: World, i: nat)
    requires Distinct(Names(g.ms)) && i < |g.ms| && Runs(g, w, i)
    ensures Live(g, w.creates, i)
    decreases i
  {
    var b := Benign(w.creates);
    BenignNeverPanics(g, w.creates, i);
    forall d | d in g.ms[i].dependencies && !d.optional
      ensures Provided(g, b, i, d.name) && !Broken(g, b, i, d.name)
    {
      var j: nat :| j < i && g.ms[j].name == d.name && Fate(g, w, j) == Built(true);
      RunIsLive(g, w, j);
      assert Fate(g, b, j) == Built(true);
      forall k: nat | k < i && g.ms[k].name == d.name ensures Fate(g, b, k).Built? {
        SameName(g, j, k);
      }
    }
    assert Asks(g, b, i);
    assert Housed(g, b, i);
    assert Runs(g, b, i);
  }

  lemma NotLiveNotBuilt(g: Group, w: World, i: nat)
    requires Distinct(Names(g.ms)) && i < |g.ms| && !Live(g, w.creates, i)
    ensures Fate(g, w, i) == NotBuilt
  {
    if Runs(g, w, i) {
      RunIsLive(g, w, i);
    }
  }

  // ---------------------------------------------------------------- feeding is transitive

  lemma {:induction false} FeedsOn(g: Group, creates: bool, k: nat, m: nat, x: nat)
    requires k < |g.ms| && m < |g.ms| && x < |g.ms|
    requires Feeds(g, creates, k, m) && Feeds(g, creates, m, x)
    ensures Feeds(g, creates, k, x)
    decreases x
  {
    if m != x {
      var n: nat :| n < x && Uses(g, x, n) && Live(g, creates, n) && Feeds(g, creates, m, n);
      FeedsOn(g, creates, k, m, n);
    }
  }

  lemma {:induction false} FeedsUp(g: Group, creates: bool, k: nat, x: nat)
    requires k < |g.ms| && x < |g.ms| && Feeds(g, creates, k, x)
    ensures k <= x && (k < x ==> Live(g, creates, k))
    decreases x
  {
    if k != x {
      var n: nat :| n < x && Uses(g, x, n) && Live(g, creates, n) && Feeds(g, creates, k, n);
      FeedsUp(g, creates, k, n);
    }
  }

  /** Everything that feeds a member of a set closed under dependencies is in it. */
  lemma {:induction false} FeedsWithin(g: Group, creates: bool, s: iset<string>, k: nat, x: nat)
    requires DependencyClosed(g.ms, s) && k < |g.ms| && x < |g.ms| && g.ms[x].name in s && Feeds(g, creates, k, x)
    ensures g.ms[k].name in s
    decreases x
  {
    if k != x {
      var n: nat :| n < x && Uses(g, x, n) && Live(g, creates, n) && Feeds(g, creates, k, n);
      FeedsWithin(g, creates, s, k, n);
    }
  }

  lemma SpoilsOn(g: Group, creates: bool, j: nat, m: nat, x: nat)
    requires j < |g.ms| && m < |g.ms| && x < |g.ms|
    requires Spoils(g, creates, j, m) && Feeds(g, creates, m, x)
    ensures Spoils(g, creates, j, x)
  {
    var k: nat :| SpoilsAt(g, creates, j, k, m);
    FeedsOn(g, creates, k, m, x);
    FeedsUp(g, creates, m, x);
    assert SpoilsAt(g, creates, j, k, x);
  }

  // ---------------------------------------------------------------- what is not exposed is isolated

  lemma UsedIsUnexposed(g: Group, creates: bool, s: iset<string>, m: nat, x: nat)
    requires m < x < |g.ms| && Uses(g, x, m) && Live(g, creates, m) && !Exposed(g, creates, s, x)
    ensures !Exposed(g, creates, s, m)
  {
    assert Feeds(g, creates, m, m);
    assert Feeds(g, creates, m, x);
    if Exposed(g, creates, s, m) {
      var j: nat :| j < m && Spoils(g, creates, j, m) && (g.ms[j].name !in s || Exposed(g, creates, s, j));
      SpoilsOn(g, creates, j, m, x);
    }
  }

  lemma {:induction false} UnexposedIsIsolated(g: Group, creates: bool, s: iset<string>, u: World, v: World, x: nat)
    requires Distinct(Names(g.ms)) && DependencyClosed(g.ms, s) && Alike(u, v, creates, s)
    requires x < |g.ms| && g.ms[x].name in s && !(Live(g, creates, x) && Exposed(g, creates, s, x))
    ensures Fate(g, u, x) == Fate(g, v, x)
    decreases x
  {
    if !Live(g, creates, x) {
      NotLiveNotBuilt(g, u, x);
      NotLiveNotBuilt(g, v, x);
    } else {
      forall m: nat | m < x && Uses(g, x, m) ensures Fate(g, u, m) == Fate(g, v, m) {
        if Live(g, creates, m) {
          UsedIsUnexposed(g, creates, s, m, x);
        }
        UnexposedIsIsolated(g, creates, s, u, v, m);
      }
      forall j: nat | j < x && SameState(g, g.ms[j].name, g.ms[x].name) && Live(g, creates, j)
        ensures Fate(g, u, j) == Fate(g, v, j)
      {
        assert Feeds(g, creates, x, x) && SpoilsAt(g, creates, j, x, x);
        UnexposedIsIsolated(g, creates, s, u, v, j);
      }
      forall j: nat | j < x && !Live(g, creates, j) ensures Fate(g, u, j) == Fate(g, v, j) == NotBuilt {
        NotLiveNotBuilt(g, u, j);
        NotLiveNotBuilt(g, v, j);
      }
      FateFrom(g, u, v, x);
    }
  }

  /** A member's fate is decided by those of its dependencies and of those before it in its state. */
  lemma FateFrom(g: Group, u: World, v: World, x: nat)
    requires x < |g.ms| && u.creates == v.creates
    requires forall wired :: u.build(g.ms[x].name, wired) == v.build(g.ms[x].name, wired)
    requires forall m: nat :: m < x && Uses(g, x, m) ==> Fate(g, u, m) == Fate(g, v, m)
    requires forall j: nat :: j < x && SameState(g, g.ms[j].name, g.ms[x].name) ==> Fate(g, u, j) == Fate(g, v, j)
    ensures Fate(g, u, x) == Fate(g, v, x)
  {
    assert SpoiltBefore(g, u, x) <==> SpoiltBefore(g, v, x);
    RunsFrom(g, u, v, x);
  }

  lemma RunsFrom(g: Group, u: World, v: World, x: nat)
    requires x < |g.ms| && u.creates == v.creates
    requires forall m: nat :: m < x && Uses(g, x, m) ==> Fate(g, u, m) == Fate(g, v, m)
    requires SpoiltBefore(g, u, x) <==> SpoiltBefore(g, v, x)
    ensures Runs(g, u, x) <==> Runs(g, v, x)
    ensures ProvidedTo(g, u, x) == ProvidedTo(g, v, x)
  {
    var deps := g.ms[x].dependencies;
    forall n | 0 <= n < |deps|
      ensures Provided(g, u, x, deps[n].name) <==> Provided(g, v, x, deps[n].name)
      ensures Broken(g, u, x, deps[n].name) <==> Broken(g, v, x, deps[n].name)
    {
      assert forall m: nat :: m < x && g.ms[m].name == deps[n].name ==> Uses(g, x, m);
    }
    hide Provided, Broken, SpoiltBefore;
    assert Asks(g, u, x) <==> Asks(g, v, x);
    assert Housed(g, u, x) <==> Housed(g, v, x);
    assert Poisoned(g, u, x) <==> Poisoned(g, v, x);
  }

  // ---------------------------------------------------------------- what is exposed is not isolated

  /** The proxies plugin `x` is handed when everything goes well. */
  ghost function Meant(g: Group, creates: bool, x: string): set<string> {
    if i: nat :| i < |g.ms| && g.ms[i].name == x then ProvidedTo(g, Benign(creates), i) else {}
  }

  /** A world whose plugins insist on every proxy they could have, and of which those in `panics` then panic. */
  ghost function Panicky(g: Group, creates: bool, panics: set<string>): World {
    World(true, creates, (x, wired) =>
      if wired != Meant(g, creates, x) then NotBuilt else if x in panics then Panicked else Built(true))
  }

  lemma PanickedIsLive(g: Group, w: World, i: nat)
    requires Distinct(Names(g.ms)) && i < |g.ms| && Fate(g, w, i) == Panicked
    ensures Live(g, w.creates, i)
  {
    RunIsLive(g, w, i);
  }

  lemma MeantFor(g: Group, creates: bool, x: nat)
    requires Distinct(Names(g.ms)) && x < |g.ms|
    ensures Meant(g, creates, g.ms[x].name) == ProvidedTo(g, Benign(creates), x)
  {
    forall i: nat | i < |g.ms| && g.ms[i].name == g.ms[x].name ensures i == x {
      SameName(g, i, x);
    }
  }

  /** A member that misses a proxy it could have had is not built. */
  lemma MissingNotBuilt(g: Group, creates: bool, panics: set<string>, m: nat, x: nat)
    requires Distinct(Names(g.ms)) && m < x < |g.ms| && Uses(g, x, m) && Live(g, creates, m)
    requires Fate(g, Panicky(g, creates, panics), m) != Built(true)
    ensures Fate(g, Panicky(g, creates, panics), x) == NotBuilt
  {
    var w := Panicky(g, creates, panics);
    MeantFor(g, creates, x);
    var y := g.ms[m].name;
    assert y in ProvidedTo(g, Benign(creates), x) by {
      assert Provided(g, Benign(creates), x, y);
    }
    assert !Provided(g, w, x, y) by {
      if Provided(g, w, x, y) {
        var j: nat :| j < x && g.ms[j].name == y && Fate(g, w, j) == Built(true);
        SameName(g, j, m);
      }
    }
    assert y !in ProvidedTo(g, w, x);
  }

  lemma {:induction false} NotBuiltOn(g: Group, creates: bool, panics: set<string>, k: nat, x: nat)
    requires Distinct(Names(g.ms)) && k < |g.ms| && x < |g.ms| && Feeds(g, creates, k, x)
    requires Fate(g, Panicky(g, creates, panics), k) == NotBuilt
    ensures Fate(g, Panicky(g, creates, panics), x) == NotBuilt
    decreases x
  {
    if k != x {
      var n: nat :| n < x && Uses(g, x, n) && Live(g, creates, n) && Feeds(g, creates, k, n);
      NotBuiltOn(g, creates, panics, k, n);
      MissingNotBuilt(g, creates, panics, n, x);
    }
  }

  /** A panic reaches whatever it can spoil. */
  lemma SpoiltNotBuilt(g: Group, creates: bool, panics: set<string>, m: nat, x: nat)
    requires Distinct(Names(g.ms)) && m < |g.ms| && x < |g.ms| && Spoils(g, creates, m, x)
    requires Fate(g, Panicky(g, creates, panics), m) == Panicked
    ensures Fate(g, Panicky(g, creates, panics), x) == NotBuilt
  {
    hide Fate, Live, Feeds, Panicky, SameState;
    var k: nat :| SpoilsAt(g, creates, m, k, x);
    SpoiltIsNotBuilt(g, Panicky(g, creates, panics), m, k);
    NotBuiltOn(g, creates, panics, k, x);
  }

  lemma SpoiltIsNotBuilt(g: Group, w: World, m: nat, k: nat)
    requires m < k < |g.ms| && SameState(g, g.ms[m].name, g.ms[k].name) && Fate(g, w, m) == Panicked
    ensures Fate(g, w, k) == NotBuilt
  {
    assert SpoiltBefore(g, w, k);
    assert Poisoned(g, w, k);
  }

  /** A member that no panic can reach is built, or panics itself. */
  lemma {:induction false} UnreachedRuns(g: Group, creates: bool, panics: set<string>, x: nat)
    requires Distinct(Names(g.ms)) && x < |g.ms| && Live(g, creates, x)
    requires forall m: nat :: m < x && Fate(g, Panicky(g, creates, panics), m) == Panicked ==>
      !Spoils(g, creates, m, x) && !Feeds(g, creates, m, x)
    ensures Fate(g, Panicky(g, creates, panics), x) == if g.ms[x].name in panics then Panicked else Built(true)
    decreases x
  {
    var w, b := Panicky(g, creates, panics), Benign(creates);
    forall m: nat | m < x && Uses(g, x, m) ensures Fate(g, w, m) == Fate(g, b, m) {
      if Live(g, creates, m) {
        assert Feeds(g, creates, m, m);
        assert Feeds(g, creates, m, x);
        forall j: nat | j < m && Fate(g, w, j) == Panicked
          ensures !Spoils(g, creates, j, m) && !Feeds(g, creates, j, m)
        {
          if Spoils(g, creates, j, m) {
            SpoilsOn(g, creates, j, m, x);
          }
          if Feeds(g, creates, j, m) {
            FeedsOn(g, creates, j, m, x);
          }
        }
        UnreachedRuns(g, creates, panics, m);
      } else {
        NotLiveNotBuilt(g, w, m);
        NotLiveNotBuilt(g, b, m);
      }
    }
    if SpoiltBefore(g, w, x) {
      var j: nat :| j < x && SameState(g, g.ms[j].name, g.ms[x].name) && Fate(g, w, j) == Panicked;
      PanickedIsLive(g, w, j);
      assert Feeds(g, creates, x, x) && SpoilsAt(g, creates, j, x, x);
    }
    BenignNeverPanics(g, creates, x);
    RunsFrom(g, w, b, x);
    MeantFor(g, creates, x);
  }

  /** From a member outside `s` to `x`, each a member that a panic of the one before it reaches. */
  ghost predicate Relay(g: Group, creates: bool, s: iset<string>, c: seq<nat>, x: nat)
    requires x < |g.ms|
  {
    && |c| >= 2 && c[|c| - 1] == x && (forall t :: 0 <= t < |c| ==> c[t] < |g.ms|)
    && g.ms[c[0]].name !in s
    && forall t :: 0 < t < |c| ==> Spoils(g, creates, c[t - 1], c[t])
  }

  ghost predicate Shortest(g: Group, creates: bool, s: iset<string>, c: seq<nat>, x: nat)
    requires x < |g.ms|
  {
    Relay(g, creates, s, c, x) && forall d :: Relay(g, creates, s, d, x) ==> |c| <= |d|
  }

  lemma {:induction false} ExposedByRelay(g: Group, creates: bool, s: iset<string>, x: nat) returns (c: seq<nat>)
    requires x < |g.ms| && Exposed(g, creates, s, x)
    ensures Relay(g, creates, s, c, x)
    decreases x
  {
    var m: nat :| m < x && Spoils(g, creates, m, x) && (g.ms[m].name !in s || Exposed(g, creates, s, m));
    if g.ms[m].name !in s {
      c := [m, x];
    } else {
      c := ExposedByRelay(g, creates, s, m);
      c := c + [x];
    }
  }

  lemma {:induction false} HasShortest(g: Group, creates: bool, s: iset<string>, c: seq<nat>, x: nat)
    returns (d: seq<nat>)
    requires x < |g.ms| && Relay(g, creates, s, c, x)
    ensures Shortest(g, creates, s, d, x)
    decreases |c|
  {
    if b :| Relay(g, creates, s, b, x) && |b| < |c| {
      d := HasShortest(g, creates, s, b, x);
    } else {
      d := c;
    }
  }

  /** A shortest relay climbs, is inside `s` after its start, and takes no detour. */
  ghost predicate Direct(g: Group, creates: bool, s: iset<string>, c: seq<nat>)
    requires forall t :: 0 <= t < |c| ==> c[t] < |g.ms|
  {
    && (forall r, t :: 0 <= r < t < |c| ==> c[r] < c[t])
    && (forall t :: 0 < t < |c| ==> g.ms[c[t]].name in s)
    && (forall r, t :: 0 <= r < t < |c| ==> !Feeds(g, creates, c[r], c[t]))
    && (forall r, t :: 0 <= r < t - 1 < |c| - 1 ==> !Spoils(g, creates, c[r], c[t]))
  }

  lemma ShortestIsDirect(g: Group, creates: bool, s: iset<string>, c: seq<nat>, x: nat)
    requires x < |g.ms| && g.ms[x].name in s && DependencyClosed(g.ms, s) && Shortest(g, creates, s, c, x)
    ensures Direct(g, creates, s, c)
  {
    hide Spoils, Feeds, DependencyClosed;
    forall t | 0 < t < |c| ensures c[t - 1] < c[t] && g.ms[c[t]].name in s {
      SpoilsUp(g, creates, c[t - 1], c[t]);
      if t < |c| - 1 {
        TailIsRelay(g, creates, s, c, t, x);
      }
    }
    Climbs(c);
    forall r, t | 0 <= r < t - 1 < |c| - 1 ensures !Spoils(g, creates, c[r], c[t]) {
      if Spoils(g, creates, c[r], c[t]) {
        Shortcut(g, creates, s, c, r, t, x);
      }
    }
    forall r, t | 0 <= r < t < |c| ensures !Feeds(g, creates, c[r], c[t]) {
      if Feeds(g, creates, c[r], c[t]) {
        if r == 0 {
          FeedsWithin(g, creates, s, c[0], c[t]);
        } else {
          SpoilsOn(g, creates, c[r - 1], c[r], c[t]);
        }
      }
    }
  }

  lemma SpoilsUp(g: Group, creates: bool, m: nat, x: nat)
    requires m < |g.ms| && x < |g.ms| && Spoils(g, creates, m, x)
    ensures m < x && Live(g, creates, m)
  {
  }

  lemma TailIsRelay(g: Group, creates: bool, s: iset<string>, c: seq<nat>, t: nat, x: nat)
    requires x < |g.ms| && Relay(g, creates, s, c, x) && t < |c| - 1
    ensures g.ms[c[t]].name !in s ==> Relay(g, creates, s, c[t..], x)
  {
    hide Spoils;
  }

  lemma Shortcut(g: Group, creates: bool, s: iset<string>, c: seq<nat>, r: nat, t: nat, x: nat)
    requires x < |g.ms| && Relay(g, creates, s, c, x) && r < t - 1 < |c| - 1 && Spoils(g, creates, c[r], c[t])
    ensures exists d :: Relay(g, creates, s, d, x) && |d| < |c|
  {
    hide Spoils;
    var d := c[..r + 1] + c[t..];
    assert d[|d| - 1] == x;
    forall n | 0 < n < |d| ensures Spoils(g, creates, d[n - 1], d[n]) {
      if n <= r {
        assert d[n - 1] == c[n - 1] && d[n] == c[n];
      } else if n == r + 1 {
        assert d[n - 1] == c[r] && d[n] == c[t];
      } else {
        var k := t + (n - r - 1);
        assert d[n - 1] == c[k - 1] && d[n] == c[k];
      }
    }
  }

  /** The plugins on the relay from its `from`-th to the last but one. */
  ghost function Along(g: Group, c: seq<nat>, from: nat): set<string>
    requires forall t :: 0 <= t < |c| ==> c[t] < |g.ms|
  {
    set t | from <= t < |c| - 1 :: g.ms[c[t]].name
  }

  lemma PanicsAsSet(g: Group, creates: bool, panics: set<string>, m: nat)
    requires m < |g.ms| && Fate(g, Panicky(g, creates, panics), m) == Panicked
    ensures g.ms[m].name in panics
  {
  }

  /** With the plugins along a shortest relay set to panic, each is run exactly when the one before it does not. */
  lemma Alternates(g: Group, creates: bool, s: iset<string>, c: seq<nat>, from: nat, t: nat, x: nat)
    requires Distinct(Names(g.ms)) && DependencyClosed(g.ms, s)
    requires x < |g.ms| && g.ms[x].name in s && Live(g, creates, x) && Shortest(g, creates, s, c, x)
    requires from <= 1 && t < |c|
    ensures var w := Panicky(g, creates, Along(g, c, from));
      if t > 0 && Fate(g, w, c[t - 1]) == Panicked then Fate(g, w, c[t]) == NotBuilt
      else Fate(g, w, c[t]) == if from <= t < |c| - 1 then Panicked else Built(true)
  {
    var panics := Along(g, c, from);
    hide Fate, Live, Feeds, Spoils, DependencyClosed, Panicky, Direct;
    ShortestIsDirect(g, creates, s, c, x);
    if t > 0 && Fate(g, Panicky(g, creates, panics), c[t - 1]) == Panicked {
      SpoiltNotBuilt(g, creates, panics, c[t - 1], c[t]);
    } else {
      if t < |c| - 1 {
        SpoilsUp(g, creates, c[t], c[t + 1]);
      }
      UnreachedOnRelay(g, creates, s, c, from, t);
    }
  }

  lemma UnreachedOnRelay(g: Group, creates: bool, s: iset<string>, c: seq<nat>, from: nat, t: nat)
    requires Distinct(Names(g.ms)) && (forall t :: 0 <= t < |c| ==> c[t] < |g.ms|) && Direct(g, creates, s, c)
    requires t < |c| && Live(g, creates, c[t])
    requires t > 0 ==> Fate(g, Panicky(g, creates, Along(g, c, from)), c[t - 1]) != Panicked
    ensures Fate(g, Panicky(g, creates, Along(g, c, from)), c[t]) ==
      if from <= t < |c| - 1 then Panicked else Built(true)
  {
    var panics := Along(g, c, from);
    var w := Panicky(g, creates, panics);
    hide Fate, Live, Feeds, Spoils, DependencyClosed, Panicky;
    forall m: nat | m < c[t] && Fate(g, w, m) == Panicked
      ensures !Spoils(g, creates, m, c[t]) && !Feeds(g, creates, m, c[t])
    {
      PanicsAsSet(g, creates, panics, m);
      EarlierOnRelay(g, creates, s, c, from, t, m);
    }
    UnreachedRuns(g, creates, panics, c[t]);
    OnRelay(g, c, from, t);
  }

  lemma EarlierOnRelay(g: Group, creates: bool, s: iset<string>, c: seq<nat>, from: nat, t: nat, m: nat)
    requires Distinct(Names(g.ms)) && (forall t :: 0 <= t < |c| ==> c[t] < |g.ms|) && Direct(g, creates, s, c)
    requires t < |c| && m < c[t] && g.ms[m].name in Along(g, c, from) && (t > 0 ==> m != c[t - 1])
    ensures !Spoils(g, creates, m, c[t]) && !Feeds(g, creates, m, c[t])
  {
    hide Feeds, Spoils;
    var r: nat :| from <= r < |c| - 1 && g.ms[c[r]].name == g.ms[m].name;
    SameName(g, c[r], m);
  }

  lemma OnRelay(g: Group, c: seq<nat>, from: nat, t: nat)
    requires Distinct(Names(g.ms)) && (forall t :: 0 <= t < |c| ==> c[t] < |g.ms|) && t < |c|
    requires forall r, t :: 0 <= r < t < |c| ==> c[r] < c[t]
    ensures g.ms[c[t]].name in Along(g, c, from) <==> from <= t < |c| - 1
  {
    if r: nat :| from <= r < |c| - 1 && g.ms[c[r]].name == g.ms[c[t]].name {
      SameName(g, c[r], c[t]);
    }
  }

  lemma {:induction false} Climbs(c: seq<nat>)
    requires forall t :: 0 < t < |c| ==> c[t - 1] < c[t]
    ensures forall r, t :: 0 <= r < t < |c| ==> c[r] < c[t]
  {
    if |c| > 0 {
      var last := |c| - 1;
      Climbs(c[..last]);
      forall r, t | 0 <= r < t < |c| ensures c[r] < c[t] {
        if t == last && r < last - 1 {
          assert c[..last][r] < c[..last][last - 1];
        } else if t < last {
          assert c[..last][r] < c[..last][t];
        }
      }
    }
  }

  /** Whether the first member of the relay panics settles, one by one, whether each member of it is run. */
  lemma {:induction false} Opposed(g: Group, creates: bool, s: iset<string>, c: seq<nat>, t: nat, x: nat)
    requires Distinct(Names(g.ms)) && DependencyClosed(g.ms, s)
    requires x < |g.ms| && g.ms[x].name in s && Live(g, creates, x) && Shortest(g, creates, s, c, x)
    requires t < |c|
    ensures Fate(g, Panicky(g, creates, Along(g, c, 0)), c[t]) != Fate(g, Panicky(g, creates, Along(g, c, 1)), c[t])
    ensures t < |c| - 1 ==> (Fate(g, Panicky(g, creates, Along(g, c, 0)), c[t]) == Panicked <==>
                             Fate(g, Panicky(g, creates, Along(g, c, 1)), c[t]) != Panicked)
  {
    Alternates(g, creates, s, c, 0, t, x);
    Alternates(g, creates, s, c, 1, t, x);
    if t > 0 {
      Opposed(g, creates, s, c, t - 1, x);
    }
  }

  lemma ExposedIsNotIsolated(g: Group, creates: bool, s: iset<string>, x: nat)
    requires Distinct(Names(g.ms)) && DependencyClosed(g.ms, s)
    requires x < |g.ms| && g.ms[x].name in s && Live(g, creates, x) && Exposed(g, creates, s, x)
    ensures !Isolated(g, creates, s, x)
  {
    hide Exposed, Live, Fate, Panicky, Along;
    var c := ExposedByRelay(g, creates, s, x);
    c := HasShortest(g, creates, s, c, x);
    var u, v := Panicky(g, creates, Along(g, c, 0)), Panicky(g, creates, Along(g, c, 1));
    AlongAlike(g, creates, s, c, x);
    Opposed(g, creates, s, c, |c| - 1, x);
  }

  lemma AlongAlike(g: Group, creates: bool, s: iset<string>, c: seq<nat>, x: nat)
    requires x < |g.ms| && Relay(g, creates, s, c, x)
    ensures Alike(Panicky(g, creates, Along(g, c, 0)), Panicky(g, creates, Along(g, c, 1)), creates, s)
  {
    hide Meant, Spoils;
    forall y | y in s ensures y in Along(g, c, 0) <==> y in Along(g, c, 1) {
    }
  }

  /**
   * The description of a caught panic as that plugin's failure and no one else's, made exact:
   * what the plugins that member `i` does not depend on do makes no difference to its fate
   * exactly when it can never be run, or no panic of theirs can reach it, however indirectly,
   * through the lock of a state that it or something it depends on runs in.
   */
  lemma FailureIsolatedIff(g: Group, creates: bool, i: nat)
    requires Distinct(Names(g.ms)) && i < |g.ms|
    ensures var s := Upstream(g.ms, g.ms[i].name);
      Isolated(g, creates, s, i) <==> !(Live(g, creates, i) && Exposed(g, creates, s, i))
  {
    var s := Upstream(g.ms, g.ms[i].name);
    UpstreamClosed(g.ms, g.ms[i].name);
    if Live(g, creates, i) && Exposed(g, creates, s, i) {
      ExposedIsNotIsolated(g, creates, s, i);
    } else {
      forall u, v | Alike(u, v, creates, s) ensures Fate(g, u, i) == Fate(g, v, i) {
        UnexposedIsIsolated(g, creates, s, u, v, i);
      }
    }
  }

  // ---------------------------------------------------------------- a first load

  lemma SameUnitTransitive(ms: seq<Manifest>, mode: IsolationMode, a: string, b: string, c: string)
    requires a in Position(ms) && b in Position(ms) && c in Position(ms)
    requires SameUnit(ms, mode, a, b) && SameUnit(ms, mode, b, c)
    ensures SameUnit(ms, mode, a, c)
  {
    if mode == PerGroup {
      ConnectedTransitive(Edges(ms), Position(ms)[a], Position(ms)[b], Position(ms)[c]);
    }
  }

  lemma UsesSharesUnit(g: Group, x: nat, k: nat)
    requires Distinct(Names(g.ms)) && g.mode != PerPlugin && k < |g.ms| && x < |g.ms| && Uses(g, x, k)
    ensures SameUnit(g.ms, g.mode, g.ms[k].name, g.ms[x].name)
  {
    var n :| 0 <= n < |g.ms[x].dependencies| && g.ms[x].dependencies[n].name == g.ms[k].name;
    DistinctPosition(g.ms, x);
    DistinctPosition(g.ms, k);
    assert (x, Position(g.ms)[g.ms[x].dependencies[n].name]) in Edges(g.ms);
    ConnectedByEdge(Edges(g.ms), k, x);
  }

  lemma {:induction false} FeedsSharesUnit(g: Group, creates: bool, k: nat, x: nat)
    requires Distinct(Names(g.ms)) && k < |g.ms| && x < |g.ms|
    requires Live(g, creates, x) && Feeds(g, creates, k, x)
    ensures SameUnit(g.ms, g.mode, g.ms[k].name, g.ms[x].name)
    decreases x
  {
    if k != x {
      var n: nat :| n < x && Uses(g, x, n) && Live(g, creates, n) && Feeds(g, creates, k, n);
      BenignNeverPanics(g, creates, x);
      FeedsSharesUnit(g, creates, k, n);
      UsesSharesUnit(g, x, n);
      SameUnitTransitive(g.ms, g.mode, g.ms[k].name, g.ms[n].name, g.ms[x].name);
    } else if g.mode == PerGroup {
      ConnectedSelf(Edges(g.ms), Position(g.ms)[g.ms[x].name]);
    }
  }

  lemma {:induction false} ExposedSharesUnit(g: Group, creates: bool, s: iset<string>, x: nat) returns (j: nat)
    requires Distinct(Names(g.ms)) && g.pool.states == map[] && x < |g.ms|
    requires Live(g, creates, x) && Exposed(g, creates, s, x)
    ensures j < x && Live(g, creates, j) && SameUnit(g.ms, g.mode, g.ms[j].name, g.ms[x].name) && g.ms[j].name !in s
    decreases x
  {
    var m: nat :| m < x && Spoils(g, creates, m, x) && (g.ms[m].name !in s || Exposed(g, creates, s, m));
    var k: nat :| SpoilsAt(g, creates, m, k, x);
    FeedsSharesUnit(g, creates, k, x);
    SameUnitTransitive(g.ms, g.mode, g.ms[m].name, g.ms[k].name, g.ms[x].name);
    if g.ms[m].name !in s {
      j := m;
    } else {
      j := ExposedSharesUnit(g, creates, s, m);
      SameUnitTransitive(g.ms, g.mode, g.ms[j].name, g.ms[m].name, g.ms[x].name);
    }
  }

  /**
   * In the first load a backend sees, a member that can be run is isolated exactly when it
   * depends, directly or not, on every earlier member that can be run in the same state. So
   * under per-plugin isolation every member is.
   */
  lemma FirstLoadIsolatedIff(g: Group, creates: bool, i: nat)
    requires Distinct(Names(g.ms)) && g.pool.states == map[] && i < |g.ms|
    ensures var s := Upstream(g.ms, g.ms[i].name);
      Isolated(g, creates, s, i) <==>
        Live(g, creates, i) ==>
        forall j: nat :: j < i && Live(g, creates, j) && SameUnit(g.ms, g.mode, g.ms[j].name, g.ms[i].name) ==>
          g.ms[j].name in s
  {
    var s := Upstream(g.ms, g.ms[i].name);
    FailureIsolatedIff(g, creates, i);
    if Live(g, creates, i) {
      if Exposed(g, creates, s, i) {
        var j := ExposedSharesUnit(g, creates, s, i);
      }
      forall j: nat |
        j < i && Live(g, creates, j) && SameUnit(g.ms, g.mode, g.ms[j].name, g.ms[i].name) && g.ms[j].name !in s
        ensures Exposed(g, creates, s, i)
      {
        assert Feeds(g, creates, i, i) && SpoilsAt(g, creates, j, i, i);
      }
    }
  }

  /**
   * The smallest case: of two plugins that know nothing of each other and are loaded into one
   * shared state, the first one's panic keeps the second out, which loads when nothing panics.
   */
  lemma PanicSpreads(a: Manifest, b: Manifest)
    requires a.name != b.name && a.dependencies == b.dependencies == []
    ensures var g := Group([a, b], Shared, Pool(map[], {}));
      && a.name !in Upstream(g.ms, b.name)
      && Fate(g, World(true, true, (x, wired) => if x == a.name then Panicked else Built(true)), 1) == NotBuilt
      && Fate(g, Benign(true), 1) == Built(true)
  {
    var g := Group([a, b], Shared, Pool(map[], {}));
    var w := World(true, true, (x, wired) => if x == a.name then Panicked else Built(true));
    assert Names(g.ms) == [a.name, b.name];
    forall p | |p| > 1 ensures !DownFrom(g.ms, p, b.name, a.name) {
      assert !DependsOn(g.ms, p[0], p[1]);
    }
    assert Fate(g, w, 0) == Panicked;
    SpoiltIsNotBuilt(g, w, 0, 1);
  }
}
