/** Which plugins must share a Lua state: connected components by union-find. */
module Components {
  import opened Distinctness
  import opened Manifests

  // ---------------------------------------------------------------- what "connected" means

  /** `Edge(es, a, b)`: some recorded edge joins `a` and `b`, in either direction. */
  ghost predicate Edge<T>(es: set<(T, T)>, a: T, b: T) {
    (a, b) in es || (b, a) in es
  }

  ghost predicate Chain<T>(es: set<(T, T)>, p: seq<T>) {
    forall k :: 0 <= k < |p| - 1 ==> Edge(es, p[k], p[k + 1])
  }

  ghost predicate ChainFromTo<T>(es: set<(T, T)>, p: seq<T>, a: T, b: T) {
    |p| > 0 && p[0] == a && p[|p| - 1] == b && Chain(es, p)
  }

  /** A chain of edges, read as undirected, leads from `a` to `b`. */
  ghost predicate Connected<T(!new)>(es: set<(T, T)>, a: T, b: T) {
    exists p: seq<T> :: ChainFromTo(es, p, a, b)
  }

  lemma ConnectedSelf<T(!new)>(es: set<(T, T)>, a: T)
    ensures Connected(es, a, a)
  {
    assert ChainFromTo(es, [a], a, a);
  }

  lemma ConnectedByEdge<T(!new)>(es: set<(T, T)>, a: T, b: T)
    requires Edge(es, a, b)
    ensures Connected(es, a, b)
  {
    assert ChainFromTo(es, [a, b], a, b);
  }

  lemma {:induction false} ConnectedSymmetric<T(!new)>(es: set<(T, T)>, a: T, b: T)
    requires Connected(es, a, b)
    ensures Connected(es, b, a)
  {
    var p :| ChainFromTo(es, p, a, b);
    var q := seq(|p|, i requires 0 <= i < |p| => p[|p| - 1 - i]);
    forall k | 0 <= k < |q| - 1 ensures Edge(es, q[k], q[k + 1]) {
      var m := |p| - 2 - k;
      assert Edge(es, p[m], p[m + 1]);
    }
    assert ChainFromTo(es, q, b, a);
  }

  lemma ConnectedTransitive<T(!new)>(es: set<(T, T)>, a: T, b: T, c: T)
    requires Connected(es, a, b) && Connected(es, b, c)
    ensures Connected(es, a, c)
  {
    var p :| ChainFromTo(es, p, a, b);
    var q :| ChainFromTo(es, q, b, c);
    var r := p + q[1..];
    forall k | 0 <= k < |r| - 1 ensures Edge(es, r[k], r[k + 1]) {
      if k < |p| - 1 {
        assert Edge(es, p[k], p[k + 1]);
      } else {
        var m := k - (|p| - 1);
        assert r[k] == q[m] && r[k + 1] == q[m + 1];
        assert Edge(es, q[m], q[m + 1]);
      }
    }
    assert ChainFromTo(es, r, a, c);
  }

  lemma ConnectedMonotone<T(!new)>(es: set<(T, T)>, more: set<(T, T)>, a: T, b: T)
    requires es <= more && Connected(es, a, b)
    ensures Connected(more, a, b)
  {
    var p :| ChainFromTo(es, p, a, b);
    assert Chain(more, p) by {
      forall k | 0 <= k < |p| - 1 ensures Edge(more, p[k], p[k + 1]) {
        assert Edge(es, p[k], p[k + 1]);
      }
    }
    assert ChainFromTo(more, p, a, b);
  }

  // ---------------------------------------------------------------- the forest

  /**
   * The parent pointers of `parent` form trees over `0..n`: `root` names every node's
   * representative, and `depth` falls along every pointer that is not a self-loop.
   */
  ghost predicate Forest(parent: seq<int>, root: seq<int>, depth: seq<nat>) {
    && |root| == |parent| && |depth| == |parent|
    && (forall i :: 0 <= i < |parent| ==> 0 <= parent[i] < |parent| && 0 <= root[i] < |parent|)
    && (forall i :: 0 <= i < |parent| ==> Placed(parent, root, depth, i))
  }

  ghost predicate Placed(parent: seq<int>, root: seq<int>, depth: seq<nat>, i: int)
    requires |root| == |parent| && |depth| == |parent| && 0 <= i < |parent|
    requires 0 <= parent[i] < |parent| && 0 <= root[i] < |parent|
  {
    && root[parent[i]] == root[i]
    && parent[root[i]] == root[i]
    && (if parent[i] == i then root[i] == i else depth[parent[i]] < depth[i])
  }

  /** Repointing a node at its grandparent leaves every representative and every depth alone. */
  lemma SplittingKeepsForest(parent: seq<int>, root: seq<int>, depth: seq<nat>, node: int)
    requires Forest(parent, root, depth) && 0 <= node < |parent| && parent[node] != node
    ensures Forest(parent[node := parent[parent[node]]], root, depth)
  {
    var up := parent[node];
    var split := parent[node := parent[up]];
    assert Placed(parent, root, depth, node) && Placed(parent, root, depth, up);
    forall i | 0 <= i < |split| ensures Placed(split, root, depth, i) {
      assert Placed(parent, root, depth, i);
    }
  }

  /** The nodes from here up to, and without, the representative. */
  ghost function Path(parent: seq<int>, root: seq<int>, depth: seq<nat>, node: int): seq<int>
    requires Forest(parent, root, depth) && 0 <= node < |parent|
    decreases depth[node]
  {
    assert Placed(parent, root, depth, node);
    if parent[node] == node then [] else [node] + Path(parent, root, depth, parent[node])
  }

  /** The nodes of the path point to what were their grandparents, and the others where they did. */
  ghost predicate SplitAlong(before: seq<int>, path: seq<int>, after: seq<int>) {
    && |after| == |before|
    && forall i :: 0 <= i < |before| ==>
        if i in path then 0 <= before[i] < |before| && after[i] == before[before[i]] else after[i] == before[i]
  }

  /**
   * Follows pointers to the representative, repointing each visited node at its
   * grandparent on the way. The rewriting never changes the partition.
   */
  method Find(parent: array<int>, start: int, ghost root: seq<int>, ghost depth: seq<nat>)
    returns (r: int)
    requires 0 <= start < parent.Length && Forest(parent[..], root, depth)
    modifies parent
    ensures Forest(parent[..], root, depth)
    ensures r == root[start] && parent[r] == r
    ensures SplitAlong(old(parent[..]), Path(old(parent[..]), root, depth, start), parent[..])
  {
    var node := start;
    ghost var first, done := parent[..], [];
    while parent[node] != node
      invariant 0 <= node < parent.Length && Forest(parent[..], root, depth)
      invariant root[node] == root[start]
      invariant Path(first, root, depth, start) == done + Path(first, root, depth, node)
      invariant SplitAlong(first, done, parent[..])
      invariant forall x <- done :: 0 <= x < parent.Length && depth[node] < depth[x]
      decreases depth[node]
    {
      assert Placed(parent[..], root, depth, node) && Placed(first, root, depth, node);
      SplittingKeepsForest(parent[..], root, depth, node);
      done := done + [node];
      var up := parent[node];
      var grand := parent[up];
      parent[node] := grand;
      node := up;
    }
    assert Placed(parent[..], root, depth, node);
    r := node;
  }

  /** Every edge lies inside one class, and every class is held together by edges. */
  ghost predicate Exact(es: set<(int, int)>, root: seq<int>) {
    && (forall e :: e in es ==> 0 <= e.0 < |root| && 0 <= e.1 < |root| && root[e.0] == root[e.1])
    && (forall i, j {:trigger Connected(es, i, j)} ::
         0 <= i < |root| && 0 <= j < |root| && root[i] == root[j] ==> Connected(es, i, j))
  }

  lemma {:induction false} ChainStaysInClass(es: set<(int, int)>, root: seq<int>, p: seq<int>, k: nat)
    requires Exact(es, root) && Chain(es, p) && k < |p|
    requires 0 <= p[0] < |root|
    ensures 0 <= p[k] < |root| && root[p[k]] == root[p[0]]
  {
    if k > 0 {
      ChainStaysInClass(es, root, p, k - 1);
      assert Edge(es, p[k - 1], p[k - 1 + 1]);
    }
  }

  lemma ExactMeansConnected(es: set<(int, int)>, root: seq<int>, i: int, j: int)
    requires Exact(es, root) && 0 <= i < |root| && 0 <= j < |root|
    ensures root[i] == root[j] <==> Connected(es, i, j)
  {
    if Connected(es, i, j) {
      var p :| ChainFromTo(es, p, i, j);
      ChainStaysInClass(es, root, p, |p| - 1);
    }
  }

  /** The classes of `left` and `right` merged into one, represented by `right`. */
  ghost function Merged(root: seq<int>, left: int, right: int): (r: seq<int>)
    ensures |r| == |root|
  {
    seq(|root|, i requires 0 <= i < |root| => if root[i] == left then right else root[i])
  }

  lemma MergedExact(es: set<(int, int)>, root: seq<int>, u: int, v: int)
    requires Exact(es, root) && 0 <= u < |root| && 0 <= v < |root|
    ensures Exact(es + {(u, v)}, Merged(root, root[u], root[v]))
  {
    var more := es + {(u, v)};
    var merged := Merged(root, root[u], root[v]);
    forall i, j | 0 <= i < |root| && 0 <= j < |root| && merged[i] == merged[j]
      ensures Connected(more, i, j)
    {
      ConnectedByEdge(more, u, v);
      ConnectedSymmetric(more, u, v);
      if root[i] == root[j] {
        ConnectedMonotone(es, more, i, j);
      } else if root[i] == root[u] {
        ConnectedMonotone(es, more, i, u);
        ConnectedMonotone(es, more, v, j);
        ConnectedTransitive(more, i, u, v);
        ConnectedTransitive(more, i, v, j);
      } else {
        ConnectedMonotone(es, more, i, v);
        ConnectedMonotone(es, more, u, j);
        ConnectedTransitive(more, i, v, u);
        ConnectedTransitive(more, i, u, j);
      }
    }
  }

  /** Hanging one root under another deepens exactly the tree that moved. */
  ghost function Deepened(root: seq<int>, depth: seq<nat>, left: int, right: int): (r: seq<nat>)
    requires |root| == |depth| && 0 <= right < |depth|
    ensures |r| == |root|
  {
    seq(|root|, i requires 0 <= i < |root| =>
      if root[i] == left then depth[i] + depth[right] + 1 else depth[i])
  }

  lemma LinkingKeepsForest(parent: seq<int>, root: seq<int>, depth: seq<nat>, left: int, right: int)
    requires Forest(parent, root, depth) && 0 <= left < |parent| && 0 <= right < |parent|
    requires parent[left] == left && parent[right] == right && left != right
    ensures Forest(parent[left := right], Merged(root, left, right), Deepened(root, depth, left, right))
  {
    var linked, merged := parent[left := right], Merged(root, left, right);
    var deepened := Deepened(root, depth, left, right);
    assert Placed(parent, root, depth, left) && Placed(parent, root, depth, right);
    forall i | 0 <= i < |linked| ensures Placed(linked, merged, deepened, i) {
      assert Placed(parent, root, depth, i);
    }
  }

  // ---------------------------------------------------------------- the components of a group

  /** The dependency edges of the first `k` manifests and the first `d` dependencies of the next. */
  ghost function EdgesUpTo(ms: seq<Manifest>, k: nat, d: nat): set<(int, int)>
    requires k <= |ms|
    requires k < |ms| ==> d <= |ms[k].dependencies|
    requires k == |ms| ==> d == 0
  {
    set i, j |
      0 <= i < |ms| && 0 <= j < |ms[i].dependencies| && (i < k || (i == k && j < d)) &&
      ms[i].dependencies[j].name in Position(ms)
      :: (i, Position(ms)[ms[i].dependencies[j].name])
  }

  ghost function Edges(ms: seq<Manifest>): set<(int, int)> {
    EdgesUpTo(ms, |ms|, 0)
  }

  lemma EdgesGrow(ms: seq<Manifest>, at: nat, d: nat)
    requires at < |ms| && d < |ms[at].dependencies|
    ensures var name := ms[at].dependencies[d].name;
      EdgesUpTo(ms, at, d + 1) == EdgesUpTo(ms, at, d) +
        (if name in Position(ms) then {(at, Position(ms)[name])} else {})
  {
  }

  lemma EdgesRoll(ms: seq<Manifest>, at: nat)
    requires at < |ms|
    ensures EdgesUpTo(ms, at + 1, 0) == EdgesUpTo(ms, at, |ms[at].dependencies|)
  {
  }

  /** Joins the classes of two nodes, hanging the first representative under the second. */
  method Unite(parent: array<int>, at: int, other: int, ghost root: seq<int>, ghost depth: seq<nat>)
    returns (ghost root': seq<int>, ghost depth': seq<nat>)
    requires 0 <= at < parent.Length && 0 <= other < parent.Length && Forest(parent[..], root, depth)
    modifies parent
    ensures Forest(parent[..], root', depth') && root' == Merged(root, root[at], root[other])
  {
    var left := Find(parent, at, root, depth);
    var right := Find(parent, other, root, depth);
    root', depth' := Merged(root, left, right), depth;
    assert Placed(parent[..], root, depth, at) && Placed(parent[..], root, depth, other);
    if left != right {
      LinkingKeepsForest(parent[..], root, depth, left, right);
      parent[left] := right;
      depth' := Deepened(root, depth, left, right);
    } else {
      assert root' == root;
    }
  }

  lemma ApartExact(ms: seq<Manifest>, parent: seq<int>, root: seq<int>, depth: seq<nat>)
    requires |parent| == |root| == |depth| == |ms|
    requires forall i :: 0 <= i < |ms| ==> parent[i] == i && root[i] == i
    ensures Forest(parent, root, depth) && Exact(EdgesUpTo(ms, 0, 0), root)
  {
    forall i | 0 <= i < |ms| { ConnectedSelf(EdgesUpTo(ms, 0, 0), i); }
  }

  /** The forest after every dependency edge of the group has been united. */
  method UniteGroup(ms: seq<Manifest>)
    returns (parent: array<int>, ghost root: seq<int>, ghost depth: seq<nat>)
    ensures fresh(parent) && parent.Length == |ms|
    ensures Forest(parent[..], root, depth) && Exact(Edges(ms), root)
  {
    var n := |ms|;
    parent := new int[n](i => i);
    root, depth := seq(n, i => i), seq(n, i => 0);
    var position := Position(ms);
    ApartExact(ms, parent[..], root, depth);
    hide Forest, Exact;

    for at := 0 to n
      invariant Forest(parent[..], root, depth)
      invariant Exact(EdgesUpTo(ms, at, 0), root)
    {
      var deps := ms[at].dependencies;
      for d := 0 to |deps|
        invariant Forest(parent[..], root, depth)
        invariant Exact(EdgesUpTo(ms, at, d), root)
      {
        EdgesGrow(ms, at, d);
        if deps[d].name in position {
          var other := position[deps[d].name];
          MergedExact(EdgesUpTo(ms, at, d), root, at, other);
          root, depth := Unite(parent, at, other, root, depth);
        } else {
          assert EdgesUpTo(ms, at, d + 1) == EdgesUpTo(ms, at, d);
        }
      }
      EdgesRoll(ms, at);
    }
  }

  /** The representative of each name's last position among the first `k`. */
  ghost function Labels(ms: seq<Manifest>, root: seq<int>, k: nat): map<string, int>
    requires k <= |ms| == |root|
  {
    if k == 0 then map[] else Labels(ms, root, k - 1)[ms[k - 1].name := root[k - 1]]
  }

  lemma {:induction false} LabelIsRoot(ms: seq<Manifest>, root: seq<int>, k: nat, name: string)
    requires k <= |ms| == |root|
    ensures name in Labels(ms, root, k) <==> name in PositionUpTo(ms, k)
    ensures name in Labels(ms, root, k) ==>
      var at := PositionUpTo(ms, k)[name]; 0 <= at < k && Labels(ms, root, k)[name] == root[at]
  {
    if k > 0 {
      LabelIsRoot(ms, root, k - 1, name);
    }
  }

  /**
   * The component id of every name. Two names get the same id exactly when a chain of
   * dependency edges, read as undirected and restricted to the group, connects them.
   */
  method DependencyComponents(ms: seq<Manifest>) returns (component: map<string, int>)
    ensures component.Keys == Position(ms).Keys
    ensures ComponentsExact(ms, component)
  {
    var parent;
    ghost var root, depth;
    parent, root, depth := UniteGroup(ms);
    component := map[];
    for at := 0 to |ms|
      invariant Forest(parent[..], root, depth)
      invariant component == Labels(ms, root, at)
    {
      var r := Find(parent, at, root, depth);
      component := component[ms[at].name := r];
    }
    forall name { LabelIsRoot(ms, root, |ms|, name); }
    RootsAreComponents(ms, root, component);
  }

  ghost predicate ComponentsExact(ms: seq<Manifest>, component: map<string, int>)
    requires component.Keys == Position(ms).Keys
  {
    forall a, b :: a in component && b in component ==>
      (component[a] == component[b] <==> Connected(Edges(ms), Position(ms)[a], Position(ms)[b]))
  }

  lemma RootsAreComponents(ms: seq<Manifest>, root: seq<int>, component: map<string, int>)
    requires |root| == |ms| && Exact(Edges(ms), root)
    requires component.Keys == Position(ms).Keys
    requires forall name <- component :: component[name] == root[Position(ms)[name]]
    ensures ComponentsExact(ms, component)
  {
    forall a, b | a in component && b in component
      ensures component[a] == component[b] <==> Connected(Edges(ms), Position(ms)[a], Position(ms)[b])
    {
      ExactMeansConnected(Edges(ms), root, Position(ms)[a], Position(ms)[b]);
    }
  }

  // ---------------------------------------------------------------- read over names

  /** The dependencies declared between members of the group, as pairs of names. */
  ghost function Declared(ms: seq<Manifest>): set<(string, string)> {
    set i, j |
      0 <= i < |ms| && 0 <= j < |ms[i].dependencies| && ms[i].dependencies[j].name in Position(ms)
      :: (ms[i].name, ms[i].dependencies[j].name)
  }

  lemma EdgeOverNames(ms: seq<Manifest>, i: int, j: int)
    requires Distinct(Names(ms)) && 0 <= i < |ms| && 0 <= j < |ms|
    ensures (i, j) in Edges(ms) <==> (ms[i].name, ms[j].name) in Declared(ms)
  {
    DistinctPosition(ms, i);
    DistinctPosition(ms, j);
    if (i, j) in Edges(ms) {
      var d :| 0 <= d < |ms[i].dependencies| && ms[i].dependencies[d].name in Position(ms) &&
        j == Position(ms)[ms[i].dependencies[d].name];
      assert ms[i].dependencies[d].name == ms[j].name;
    }
    if (ms[i].name, ms[j].name) in Declared(ms) {
      var k, d :| 0 <= k < |ms| && 0 <= d < |ms[k].dependencies| && ms[k].name == ms[i].name &&
        ms[k].dependencies[d].name == ms[j].name;
      DistinctPosition(ms, k);
      assert (k, Position(ms)[ms[k].dependencies[d].name]) in Edges(ms);
    }
  }

  lemma {:induction false} ChainStaysInGroup(ms: seq<Manifest>, p: seq<int>, k: nat)
    requires Chain(Edges(ms), p) && k < |p| && 0 <= p[0] < |ms|
    ensures 0 <= p[k] < |ms|
  {
    if k > 0 {
      ChainStaysInGroup(ms, p, k - 1);
      assert Edge(Edges(ms), p[k - 1], p[k - 1 + 1]);
    }
  }

  lemma PositionsToNames(ms: seq<Manifest>, i: int, j: int)
    requires Distinct(Names(ms)) && 0 <= i < |ms| && 0 <= j < |ms|
    requires Connected(Edges(ms), i, j)
    ensures Connected(Declared(ms), ms[i].name, ms[j].name)
  {
    var p :| ChainFromTo(Edges(ms), p, i, j);
    forall k | 0 <= k < |p| ensures 0 <= p[k] < |ms| {
      ChainStaysInGroup(ms, p, k);
    }
    var q := seq(|p|, k requires 0 <= k < |p| => ms[p[k]].name);
    forall k | 0 <= k < |q| - 1 ensures Edge(Declared(ms), q[k], q[k + 1]) {
      assert Edge(Edges(ms), p[k], p[k + 1]);
      EdgeOverNames(ms, p[k], p[k + 1]);
      EdgeOverNames(ms, p[k + 1], p[k]);
    }
    assert ChainFromTo(Declared(ms), q, ms[i].name, ms[j].name);
  }

  lemma {:induction false} NameChainStaysInGroup(ms: seq<Manifest>, q: seq<string>, k: nat)
    requires Chain(Declared(ms), q) && k < |q| && q[0] in Position(ms)
    ensures q[k] in Position(ms)
  {
    if k > 0 {
      assert Edge(Declared(ms), q[k - 1], q[k - 1 + 1]);
    }
  }

  lemma NamesToPositions(ms: seq<Manifest>, i: int, j: int)
    requires Distinct(Names(ms)) && 0 <= i < |ms| && 0 <= j < |ms|
    requires Connected(Declared(ms), ms[i].name, ms[j].name)
    ensures Connected(Edges(ms), i, j)
  {
    var q :| ChainFromTo(Declared(ms), q, ms[i].name, ms[j].name);
    forall k | 0 <= k < |q| ensures q[k] in Position(ms) {
      NameChainStaysInGroup(ms, q, k);
    }
    var p := seq(|q|, k requires 0 <= k < |q| => Position(ms)[q[k]]);
    forall k | 0 <= k < |p| - 1 ensures Edge(Edges(ms), p[k], p[k + 1]) {
      assert Edge(Declared(ms), q[k], q[k + 1]);
      EdgeOverNames(ms, p[k], p[k + 1]);
      EdgeOverNames(ms, p[k + 1], p[k]);
    }
    DistinctPosition(ms, i);
    DistinctPosition(ms, j);
    assert ChainFromTo(Edges(ms), p, i, j);
  }

  /** With distinct names, chains over positions and chains over names are the same thing. */
  lemma ConnectedOverNames(ms: seq<Manifest>, i: int, j: int)
    requires Distinct(Names(ms)) && 0 <= i < |ms| && 0 <= j < |ms|
    ensures Connected(Edges(ms), i, j) <==> Connected(Declared(ms), ms[i].name, ms[j].name)
  {
    if Connected(Edges(ms), i, j) {
      PositionsToNames(ms, i, j);
    }
    if Connected(Declared(ms), ms[i].name, ms[j].name) {
      NamesToPositions(ms, i, j);
    }
  }

  /**
   * With distinct names the components are exactly the classes of plugins joined by a
   * chain of declared dependencies inside the group.
   */
  lemma ComponentsOverNames(ms: seq<Manifest>, component: map<string, int>, i: int, j: int)
    requires Distinct(Names(ms)) && 0 <= i < |ms| && 0 <= j < |ms|
    requires component.Keys == Position(ms).Keys && ComponentsExact(ms, component)
    ensures component[ms[i].name] == component[ms[j].name]
      <==> Connected(Declared(ms), ms[i].name, ms[j].name)
  {
    DistinctPosition(ms, i);
    DistinctPosition(ms, j);
    ConnectedOverNames(ms, i, j);
  }
}
