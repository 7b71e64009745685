/** The queue at the heart of `resolve_order`, and what it leaves behind on any graph. */
module Kahn {
  import opened Distinctness

  /** For every plugin, the dependencies it has to follow. */
  type Graph = map<string, set<string>>

  // ---------------------------------------------------------------- reference notions

  /** Every step of `w` goes from a plugin to one of its dependencies. */
  ghost predicate Walk(g: Graph, w: seq<string>) {
    && (forall k :: 0 <= k < |w| ==> w[k] in g)
    && (forall k :: 0 <= k < |w| - 1 ==> w[k + 1] in g[w[k]])
  }

  /** Following dependencies from `x` can come back to a plugin already passed. */
  ghost predicate LeadsToCycle(g: Graph, x: string) {
    exists w: seq<string> :: Lasso(g, w, x)
  }

  ghost predicate Lasso(g: Graph, w: seq<string>, x: string) {
    && Walk(g, w) && |w| > 0 && w[0] == x
    && !Distinct(w)
  }

  /** Every plugin comes after all of its dependencies. */
  ghost predicate Topological(g: Graph, order: seq<string>) {
    forall i {:trigger Follows(g, order, i)} :: 0 <= i < |order| ==> Follows(g, order, i)
  }

  ghost predicate Follows(g: Graph, order: seq<string>, i: nat)
    requires i < |order|
  {
    order[i] in g && forall d <- g[order[i]] :: d in order[..i]
  }

  ghost predicate Closed(g: Graph) {
    forall x <- g :: g[x] <= g.Keys
  }

  // ---------------------------------------------------------------- the working state

  /** The counts and reverse edges `resolve_order` builds describe the graph `g`. */
  ghost predicate Describes(g: Graph, indegree: map<string, nat>, dependents: map<string, seq<string>>) {
    && Closed(g)
    && indegree.Keys == g.Keys
    && (forall x <- g :: indegree[x] == |g[x]|)
    && (forall d <- dependents :: Reverse(g, d, dependents[d]))
    && (forall x <- g, d <- g[x] :: d in dependents)
  }

  /** `xs` lists exactly the plugins depending on `d`, each once. */
  ghost predicate Reverse(g: Graph, d: string, xs: seq<string>) {
    Distinct(xs) && forall x :: x in xs <==> x in g && d in g[x]
  }

  /** Each count is the number of dependencies not yet ordered; `late` still await their decrement. */
  ghost predicate Counts(g: Graph, indegree: map<string, nat>, done: set<string>, late: seq<string>) {
    && indegree.Keys == g.Keys
    && forall x {:trigger Counted(g, indegree, done, late, x)} :: x in g ==> Counted(g, indegree, done, late, x)
  }

  ghost predicate Counted(g: Graph, indegree: map<string, nat>, done: set<string>, late: seq<string>, x: string)
    requires x in g && x in indegree
  {
    indegree[x] == |g[x] - done| + (if x in late then 1 else 0)
  }

  /** The plugins ordered or ready are exactly those with nothing left to wait for. */
  ghost predicate Released(g: Graph, indegree: map<string, nat>, order: seq<string>, ready: seq<string>) {
    && indegree.Keys == g.Keys
    && Distinct(order + ready)
    && (forall x <- order + ready :: x in g)
    && (forall x <- g :: indegree[x] == 0 <==> x in order + ready)
  }

  ghost predicate Remaining(g: Graph, dependents: map<string, seq<string>>, order: seq<string>) {
    && (forall d <- dependents :: d !in order && Reverse(g, d, dependents[d]))
    && (forall x <- g, d <- g[x] :: d !in order ==> d in dependents)
  }

  ghost predicate Invariant(g: Graph, indegree: map<string, nat>, dependents: map<string, seq<string>>,
                            order: seq<string>, ready: seq<string>)
  {
    && Closed(g)
    && Counts(g, indegree, Members(order), [])
    && Released(g, indegree, order, ready)
    && Remaining(g, dependents, order)
    && Topological(g, order)
  }

  // ---------------------------------------------------------------- one dependent

  lemma Decremented(g: Graph, indegree: map<string, nat>, done: set<string>, late: seq<string>,
                    order: seq<string>, ready: seq<string>)
    requires late != [] && Distinct(late) && late[0] in g
    requires Counts(g, indegree, done, late) && Released(g, indegree, order, ready)
    ensures indegree[late[0]] > 0
    ensures var x := late[0];
      var fewer := indegree[x := indegree[x] - 1];
      && Counts(g, fewer, done, late[1..])
      && Released(g, fewer, order, if fewer[x] == 0 then ready + [x] else ready)
  {
    var x := late[0];
    assert Counted(g, indegree, done, late, x);
    var fewer := indegree[x := indegree[x] - 1];
    assert x !in late[1..];
    forall y <- g ensures Counted(g, fewer, done, late[1..], y) {
      assert Counted(g, indegree, done, late, y);
      assert y != x ==> (y in late <==> y in late[1..]);
    }
    ReleasedOn(g, indegree, order, ready, x);
  }

  lemma ReleasedOn(g: Graph, indegree: map<string, nat>, order: seq<string>, ready: seq<string>, x: string)
    requires Released(g, indegree, order, ready) && x in g && indegree[x] > 0
    ensures var fewer := indegree[x := indegree[x] - 1];
      Released(g, fewer, order, if fewer[x] == 0 then ready + [x] else ready)
  {
    assert x !in order + ready;
    assert order + (ready + [x]) == (order + ready) + [x];
  }

  // ---------------------------------------------------------------- one plugin popped

  ghost function Late(dependents: map<string, seq<string>>, name: string): seq<string> {
    if name in dependents then dependents[name] else []
  }

  lemma PoppedIsFresh(g: Graph, indegree: map<string, nat>, order: seq<string>, ready: seq<string>)
    requires ready != [] && Released(g, indegree, order, ready)
    ensures ready[0] in g && ready[0] !in order && indegree[ready[0]] == 0
    ensures Released(g, indegree, order + [ready[0]], ready[1..])
  {
    assert (order + [ready[0]]) + ready[1..] == order + ready;
    assert (order + ready)[|order|] == ready[0];
    forall k | 0 <= k < |order| ensures order[k] != ready[0] {
      assert (order + ready)[k] == order[k];
    }
  }

  lemma PoppedCounts(g: Graph, indegree: map<string, nat>, dependents: map<string, seq<string>>,
                     order: seq<string>, name: string)
    requires name in g && name !in order
    requires Counts(g, indegree, Members(order), []) && Remaining(g, dependents, order)
    ensures Counts(g, indegree, Members(order + [name]), Late(dependents, name))
  {
    var done, done' := Members(order), Members(order + [name]);
    assert done' == done + {name};
    forall x <- g ensures Counted(g, indegree, done', Late(dependents, name), x) {
      assert Counted(g, indegree, done, [], x);
      if name in g[x] {
        assert Reverse(g, name, dependents[name]);
        assert g[x] - done == (g[x] - done') + {name};
      } else {
        if name in dependents {
          assert Reverse(g, name, dependents[name]);
        }
        assert g[x] - done == g[x] - done';
      }
    }
  }

  lemma PoppedOrder(g: Graph, indegree: map<string, nat>, order: seq<string>, name: string)
    requires name in g && Counts(g, indegree, Members(order), []) && indegree[name] == 0
    requires Topological(g, order)
    ensures Topological(g, order + [name])
  {
    var order' := order + [name];
    forall i | 0 <= i < |order'| ensures Follows(g, order', i) {
      if i < |order| {
        assert Follows(g, order, i);
        assert order'[..i] == order[..i];
      } else {
        assert order'[..i] == order;
        assert Counted(g, indegree, Members(order), [], name);
        assert g[name] - Members(order) == {};
        forall d <- g[name] ensures d in order {
          assert d !in g[name] - Members(order);
        }
      }
    }
  }

  lemma PoppedRemaining(g: Graph, dependents: map<string, seq<string>>, order: seq<string>, name: string)
    requires Remaining(g, dependents, order)
    ensures Remaining(g, dependents - {name}, order + [name])
    ensures var late := Late(dependents, name); Distinct(late) && forall x <- late :: x in g
  {
    if name in dependents {
      assert Reverse(g, name, dependents[name]);
    }
  }

  /** Counts every listed dependent down once, queueing those left with nothing to wait for. */
  method Release(late: seq<string>, indegree0: map<string, nat>, ready0: seq<string>,
                 ghost g: Graph, ghost order: seq<string>)
    returns (indegree: map<string, nat>, ready: seq<string>)
    ensures ready0 <= ready && forall x <- ready :: x in ready0 || x in late
    ensures late == [] ==> ready == ready0
    ensures
      Distinct(late) && (forall x <- late :: x in g) &&
      Counts(g, indegree0, Members(order), late) && Released(g, indegree0, order, ready0) ==>
      Counts(g, indegree, Members(order), []) && Released(g, indegree, order, ready)
  {
    ghost var described :=
      Distinct(late) && (forall x <- late :: x in g) &&
      Counts(g, indegree0, Members(order), late) && Released(g, indegree0, order, ready0);
    indegree, ready := indegree0, ready0;
    for k := 0 to |late|
      invariant ready0 <= ready && forall x <- ready :: x in ready0 || x in late
      invariant k == 0 ==> ready == ready0
      invariant described ==>
        Counts(g, indegree, Members(order), late[k..]) && Released(g, indegree, order, ready)
    {
      if described {
        assert late[k] in late && late[k..][1..] == late[k + 1..];
        Decremented(g, indegree, Members(order), late[k..], order, ready);
      }
      if late[k] in indegree {
        // The subtraction never has to saturate.
        assert described ==> indegree[late[k]] > 0;
        var count := if indegree[late[k]] == 0 then 0 else indegree[late[k]] - 1;
        indegree := indegree[late[k] := count];
        if count == 0 {
          ready := ready + [late[k]];
        }
      }
    }
    assert late[|late|..] == [];
  }

  /** Only names already known are ever queued. */
  ghost predicate Within(names: set<string>, xs: seq<string>) {
    forall x <- xs :: x in names
  }

  /**
   * The queue loop. It ends on any input; when the tables describe a graph it yields an
   * order that respects every edge, and holds back only plugins waiting for one another.
   */
  method Drain(ready0: seq<string>, indegree0: map<string, nat>, dependents0: map<string, seq<string>>,
               ghost g: Graph, ghost names: set<string>)
    returns (order: seq<string>)
    requires Within(names, ready0) && forall d <- dependents0 :: Within(names, dependents0[d])
    ensures Within(names, order)
    ensures Describes(g, indegree0, dependents0) && Released(g, indegree0, [], ready0) ==>
      ready0 <= order && Ordered(g, order)
  {
    ghost var described := Describes(g, indegree0, dependents0) && Released(g, indegree0, [], ready0);
    var indegree, dependents, ready := indegree0, dependents0, ready0;
    order := [];
    if described {
      Started(g, indegree, dependents, ready);
    }
    while ready != []
      invariant Within(names, order) && Within(names, ready)
      invariant forall d <- dependents :: Within(names, dependents[d])
      invariant described ==> Invariant(g, indegree, dependents, order, ready)
      invariant ready0 <= order + ready
      decreases dependents.Keys, |ready|
    {
      var name := ready[0];
      var late := if name in dependents then dependents[name] else [];
      if described {
        PoppedIsFresh(g, indegree, order, ready);
        PoppedCounts(g, indegree, dependents, order, name);
        PoppedOrder(g, indegree, order, name);
        PoppedRemaining(g, dependents, order, name);
      }
      assert order + ready == (order + [name]) + ready[1..];
      assert name !in dependents ==> dependents - {name} == dependents;
      order, dependents := order + [name], dependents - {name};
      indegree, ready := Release(late, indegree, ready[1..], g, order);
    }
    if described {
      Finished(g, indegree, dependents, order);
    }
  }

  lemma Started(g: Graph, indegree: map<string, nat>, dependents: map<string, seq<string>>, ready: seq<string>)
    requires Describes(g, indegree, dependents) && Released(g, indegree, [], ready)
    ensures Invariant(g, indegree, dependents, [], ready)
  {
    forall x <- g ensures Counted(g, indegree, Members([]), [], x) {
      assert g[x] - Members<string>([]) == g[x];
    }
  }

  /** A finished order: it respects every edge, and whatever it leaves out waits for another left out. */
  ghost predicate Ordered(g: Graph, order: seq<string>) {
    && Distinct(order) && Topological(g, order)
    && (forall x {:trigger HeldBack(g, order, x)} :: x in g && x !in order ==> HeldBack(g, order, x))
  }

  ghost predicate HeldBack(g: Graph, order: seq<string>, x: string)
    requires x in g
  {
    exists d :: d in g[x] && d in g && d !in order
  }

  lemma Finished(g: Graph, indegree: map<string, nat>, dependents: map<string, seq<string>>, order: seq<string>)
    requires Invariant(g, indegree, dependents, order, [])
    ensures Ordered(g, order)
  {
    assert order + [] == order;
    forall x <- g | x !in order ensures HeldBack(g, order, x) {
      assert Counted(g, indegree, Members(order), [], x);
      assert |g[x] - Members(order)| > 0;
      var d :| d in g[x] - Members(order);
    }
  }

  // ---------------------------------------------------------------- what is held back

  /** Along a walk from an ordered plugin, positions in the order fall strictly. */
  lemma {:induction false} WalkDescends(g: Graph, order: seq<string>, w: seq<string>) returns (at: seq<nat>)
    requires Ordered(g, order) && Walk(g, w) && w != [] && w[0] in order
    ensures |at| == |w|
    ensures forall k :: 0 <= k < |w| ==> at[k] < |order| && order[at[k]] == w[k]
    ensures forall i, j :: 0 <= i < j < |w| ==> at[i] > at[j]
  {
    var first :| 0 <= first < |order| && order[first] == w[0];
    if |w| == 1 {
      at := [first];
    } else {
      var tail := w[1..];
      assert Walk(g, tail) by {
        forall k | 0 <= k < |tail| - 1 ensures tail[k + 1] in g[tail[k]] {
          assert w[k + 1 + 1] in g[w[k + 1]];
        }
      }
      assert w[0 + 1] in g[w[0]];
      assert Follows(g, order, first);
      assert w[1] in order[..first];
      var second :| 0 <= second < |order[..first]| && order[..first][second] == w[1];
      var rest := WalkDescends(g, order, tail);
      assert rest[0] == second;
      at := [first] + rest;
    }
  }

  /** Starting from a plugin held back, there are walks of any length through plugins held back. */
  lemma {:induction false} WalkHeldBack(g: Graph, order: seq<string>, x: string, n: nat) returns (w: seq<string>)
    requires Ordered(g, order) && x in g && x !in order
    ensures |w| == n + 1 && w[0] == x && Walk(g, w)
    decreases n
  {
    if n == 0 {
      w := [x];
    } else {
      assert HeldBack(g, order, x);
      var d :| d in g[x] && d in g && d !in order;
      var rest := WalkHeldBack(g, order, d, n - 1);
      w := [x] + rest;
      forall k | 0 <= k < |w| - 1 ensures w[k + 1] in g[w[k]] {
        if k > 0 {
          assert rest[k - 1 + 1] in g[rest[k - 1]];
        }
      }
    }
  }

  /**
   * The plugins left out of the order are exactly those from which following dependencies
   * leads to a cycle: the members of cycles and everything that depends on one.
   */
  lemma HeldBackIffCycle(g: Graph, order: seq<string>, x: string)
    requires Ordered(g, order) && x in g
    ensures x !in order <==> LeadsToCycle(g, x)
  {
    if x !in order {
      var w := WalkHeldBack(g, order, x, |g.Keys|);
      var i, j := Pigeonhole(w, g.Keys);
      assert Lasso(g, w, x);
    } else if LeadsToCycle(g, x) {
      var w :| Lasso(g, w, x);
      var at := WalkDescends(g, order, w);
      assert false;
    }
  }
}
