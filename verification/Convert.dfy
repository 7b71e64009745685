/** The two conversions, and when the traversal that takes functions back agrees with the one that stashed them. */
module Convert {
  import opened Wrappers
  import opened Orders
  import opened Sequences
  import opened Distinctness
  import opened Values
  import opened LuaValues

  // ---------------------------------------------------------------- one table, child by child

  ghost function Kids(v: LuaValue): (r: seq<LuaValue>)
    requires v.LuaTable?
    ensures |r| == |KeyOrder(v.entries.Keys)|
  {
    var keys := KeyOrder(v.entries.Keys);
    seq(|keys|, i requires 0 <= i < |keys| => v.entries[keys[i]])
  }

  /** The children that survive, in the order they are walked. */
  ghost function Walked(v: LuaValue): (r: seq<LuaValue>)
    requires v.LuaTable?
    ensures |r| == |Walk(KeyOrder(v.entries.Keys))|
  {
    Pick(Kids(v), Walk(KeyOrder(v.entries.Keys)))
  }

  ghost function ToAbiAll(vs: seq<LuaValue>): (r: seq<Value>)
    ensures |r| == |vs|
  {
    seq(|vs|, i requires 0 <= i < |vs| => ToAbi(vs[i]))
  }

  ghost function StashedAll(vs: seq<LuaValue>): (r: seq<seq<int>>)
    ensures |r| == |vs|
  {
    seq(|vs|, i requires 0 <= i < |vs| => Stashed(vs[i]))
  }

  ghost function ConsumedAll(vs: seq<LuaValue>): (r: seq<seq<int>>)
    ensures |r| == |vs|
  {
    seq(|vs|, i requires 0 <= i < |vs| => Consumed(vs[i]))
  }

  ghost function CrossedAll(vs: seq<LuaValue>): (r: seq<LuaValue>)
    ensures |r| == |vs|
  {
    seq(|vs|, i requires 0 <= i < |vs| => Crossed(vs[i]))
  }

  lemma ToAbiUnfolds(v: LuaValue)
    requires v.LuaTable?
    ensures ToAbi(v) == TableValue(KeyOrder(v.entries.Keys), ToAbiAll(Kids(v)))
  {
    hide TableValue;
    var keys := KeyOrder(v.entries.Keys);
    assert seq(|keys|, i requires 0 <= i < |keys| => ToAbi(v.entries[keys[i]])) == ToAbiAll(Kids(v));
  }

  lemma StashedUnfolds(v: LuaValue)
    requires v.LuaTable?
    ensures Stashed(v) == Flat(StashedAll(Kids(v)))
  {
    var keys := KeyOrder(v.entries.Keys);
    assert seq(|keys|, i requires 0 <= i < |keys| => Stashed(v.entries[keys[i]])) == StashedAll(Kids(v));
  }

  lemma ConsumedUnfolds(v: LuaValue)
    requires v.LuaTable?
    ensures Consumed(v) == Flat(ConsumedAll(Walked(v)))
  {
    hide Walk, Flat;
    var keys := KeyOrder(v.entries.Keys);
    assert Pick(seq(|keys|, i requires 0 <= i < |keys| => Consumed(v.entries[keys[i]])), Walk(keys)) ==
      ConsumedAll(Walked(v));
  }

  lemma CrossedUnfolds(v: LuaValue)
    requires v.LuaTable?
    ensures Crossed(v) == CrossedTable(KeyOrder(v.entries.Keys), CrossedAll(Kids(v)))
  {
    hide CrossedTable;
    var keys := KeyOrder(v.entries.Keys);
    assert seq(|keys|, i requires 0 <= i < |keys| => Crossed(v.entries[keys[i]])) == CrossedAll(Kids(v));
  }

  lemma PartsOfTable(keys: seq<Key>, vals: seq<Value>)
    requires |vals| == |keys|
    ensures Parts(TableValue(keys, vals)) == Pick(vals, Walk(keys))
  {
    hide Survivors, Walk;
    if Dense(keys) {
      assert Walk(keys) == Iota(|keys|) by {
        DenseWalk(keys);
      }
    } else {
      PartsOfKeyed(keys, vals);
      hide Pick, Keyed;
    }
  }

  lemma DenseWalk(keys: seq<Key>)
    requires Dense(keys)
    ensures Walk(keys) == Iota(|keys|)
  {
  }

  lemma PartsOfKeyed(keys: seq<Key>, vals: seq<Value>)
    requires |vals| == |keys| && !Dense(keys)
    ensures Parts(Map(Keyed(keys, vals))) == Pick(vals, Walk(keys))
  {
    hide Survivors, SortedKeys, Dense;
    var kept := Keyed(keys, vals);
    assert kept.Keys == Survivors(keys).Keys;
    var labels := SortedKeys(kept.Keys);
    forall i | 0 <= i < |labels| ensures Parts(Map(kept))[i] == Pick(vals, Walk(keys))[i] {
      assert labels[i] in kept;
    }
  }

  lemma PartsAreWalked(v: LuaValue)
    requires v.LuaTable?
    ensures (ToAbi(v).List? || ToAbi(v).Map?) && Parts(ToAbi(v)) == ToAbiAll(Walked(v))
  {
    ToAbiUnfolds(v);
    PartsOfTable(KeyOrder(v.entries.Keys), ToAbiAll(Kids(v)));
    hide ToAbi, Walk, Parts;
    assert Pick(ToAbiAll(Kids(v)), Walk(KeyOrder(v.entries.Keys))) == ToAbiAll(Walked(v));
  }

  lemma KidAt(v: LuaValue, i: nat)
    requires v.LuaTable? && i < |Walked(v)|
    ensures var keys := KeyOrder(v.entries.Keys);
      Walked(v)[i] == v.entries[keys[Walk(keys)[i]]] == Kids(v)[Walk(keys)[i]]
  {
  }

  // ---------------------------------------------------------------- tables, read back

  lemma {:induction false} ListEntriesAre(vals: seq<LuaValue>)
    ensures forall i :: 0 <= i < |vals| && vals[i] != LuaNil ==>
      IntKey(i + 1) in ListEntries(vals) && ListEntries(vals)[IntKey(i + 1)] == vals[i]
    ensures forall key <- ListEntries(vals) :: key.IntKey? && 1 <= key.index <= |vals| && vals[key.index - 1] != LuaNil
  {
    if vals != [] {
      ListEntriesAre(vals[..|vals| - 1]);
    }
  }

  ghost predicate SameNils(a: seq<LuaValue>, b: seq<LuaValue>) {
    |a| == |b| && forall i :: 0 <= i < |a| ==> (a[i] == LuaNil <==> b[i] == LuaNil)
  }

  lemma ListTableInjective(a: seq<LuaValue>, b: seq<LuaValue>)
    requires SameNils(a, b) && ListTable(a) == ListTable(b)
    ensures a == b
  {
    ListEntriesAre(a);
    ListEntriesAre(b);
    forall i | 0 <= i < |a| ensures a[i] == b[i] {
      if a[i] != LuaNil {
        assert ListEntries(a)[IntKey(i + 1)] == ListEntries(b)[IntKey(i + 1)];
      }
    }
  }

  lemma {:induction false} ZipAre<V>(keys: seq<string>, vals: seq<V>)
    requires |keys| == |vals| && Distinct(keys)
    ensures forall i :: 0 <= i < |keys| ==> keys[i] in Zip(keys, vals) && Zip(keys, vals)[keys[i]] == vals[i]
    ensures forall s :: s in Zip(keys, vals) <==> s in keys
  {
    if keys != [] {
      var last := |keys| - 1;
      ZipAre(keys[..last], vals[..last]);
      assert keys == keys[..last] + [keys[last]];
    }
  }

  lemma MapTableInjective(keys: seq<string>, a: seq<LuaValue>, b: seq<LuaValue>)
    requires |keys| == |a| && Distinct(keys) && SameNils(a, b)
    requires MapTable(Zip(keys, a)) == MapTable(Zip(keys, b))
    ensures a == b
  {
    ZipAre(keys, a);
    ZipAre(keys, b);
    forall i | 0 <= i < |a| ensures a[i] == b[i] {
      var key := StrKey(Text(keys[i]));
      if a[i] != LuaNil {
        assert key in MapTable(Zip(keys, a)).entries && MapTable(Zip(keys, a)).entries[key] == a[i];
        assert key in MapTable(Zip(keys, b)).entries && MapTable(Zip(keys, b)).entries[key] == b[i];
      }
    }
  }

  /** The labels zipped with the walked children are the keyed children. */
  lemma ZipIsKeyed<V>(keys: seq<Key>, vals: seq<V>)
    requires |vals| == |keys| && !Dense(keys)
    ensures Zip(SortedKeys(Survivors(keys).Keys), Pick(vals, Walk(keys))) == Keyed(keys, vals)
  {
    var labels, at, picked := SortedKeys(Survivors(keys).Keys), Survivors(keys), Pick(vals, Walk(keys));
    assert forall i :: 0 <= i < |labels| ==> labels[i] in at && picked[i] == vals[at[labels[i]]];
    SortedKeysOrdered(at.Keys);
    hide Walk, Survivors, Zip;
    ZipMatches(labels, picked, Keyed(keys, vals));
  }

  lemma ZipMatches<V>(labels: seq<string>, vals: seq<V>, m: map<string, V>)
    requires |labels| == |vals| && Distinct(labels)
    requires forall s :: s in labels <==> s in m
    requires forall i :: 0 <= i < |labels| ==> labels[i] in m && vals[i] == m[labels[i]]
    ensures Zip(labels, vals) == m
  {
    ZipAre(labels, vals);
    hide Zip;
    forall s | s in m ensures s in Zip(labels, vals) && Zip(labels, vals)[s] == m[s] {
      var i :| 0 <= i < |labels| && labels[i] == s;
    }
    assert Zip(labels, vals).Keys == m.Keys;
  }

  lemma NilCrossesAsNil(v: LuaValue)
    ensures Crossed(v) == LuaNil <==> ToAbi(v) == Nil
  {
  }

  lemma NilsMatch(val: Value, queue: seq<int>)
    ensures FromAbi(val, queue).Some? ==> (FromAbi(val, queue).value.0 == LuaNil <==> val == Nil)
  {
    hide Parts, FromParts;
  }

  lemma {:induction false} PartsNils(val: Value, k: nat, queue: seq<int>)
    requires k <= |Parts(val)| && FromParts(val, k, queue).Some?
    ensures forall i :: 0 <= i < k ==> (FromParts(val, k, queue).value.0[i] == LuaNil <==> Parts(val)[i] == Nil)
  {
    hide FromAbi, Parts;
    if k > 0 {
      PartsNils(val, k - 1, queue);
      var rest := FromParts(val, k - 1, queue).value.1;
      NilsMatch(Parts(val)[k - 1], rest);
    }
  }

  // ---------------------------------------------------------------- what the way back binds

  /** The table rebuilt is the one meant exactly when its parts are. */
  lemma TableBinds(v: LuaValue, parts: seq<LuaValue>)
    requires v.LuaTable? && SameNils(parts, CrossedAll(Walked(v)))
    ensures (ToAbi(v).List? || ToAbi(v).Map?) && |parts| == |Parts(ToAbi(v))|
    ensures Rebuilt(ToAbi(v), parts) == Crossed(v) <==> parts == CrossedAll(Walked(v))
  {
    hide Crossed;
    PartsAreWalked(v);
    CrossedUnfolds(v);
    ToAbiUnfolds(v);
    hide ToAbi, Walk;
    var keys, kids := KeyOrder(v.entries.Keys), Kids(v);
    assert CrossedAll(Walked(v)) == Pick(CrossedAll(kids), Walk(keys));
    RebuiltBinds(keys, ToAbiAll(kids), CrossedAll(kids), parts);
  }

  lemma RebuiltBinds(keys: seq<Key>, vals: seq<Value>, crossed: seq<LuaValue>, parts: seq<LuaValue>)
    requires |vals| == |keys| == |crossed| && SameNils(parts, Pick(crossed, Walk(keys)))
    requires |Parts(TableValue(keys, vals))| == |parts|
    ensures Rebuilt(TableValue(keys, vals), parts) == CrossedTable(keys, crossed) <==>
      parts == Pick(crossed, Walk(keys))
  {
    if Dense(keys) {
      assert Pick(crossed, Walk(keys)) == crossed;
      if ListTable(parts) == ListTable(crossed) {
        ListTableInjective(parts, crossed);
      }
    } else {
      var labels := SortedKeys(Survivors(keys).Keys);
      assert Keyed(keys, vals).Keys == Survivors(keys).Keys;
      ZipIsKeyed(keys, crossed);
      SortedKeysOrdered(Survivors(keys).Keys);
      if MapTable(Zip(labels, parts)) == MapTable(Keyed(keys, crossed)) {
        MapTableInjective(labels, parts, Pick(crossed, Walk(keys)));
      }
    }
  }

  /**
   * Converting back yields the value meant, with every function under its own key, from exactly
   * the queues that begin with the functions in walking order; and it takes just those.
   */
  lemma {:induction false} Binds(v: LuaValue, queue: seq<int>, rest: seq<int>)
    ensures FromAbi(ToAbi(v), queue) == Some((Crossed(v), rest)) <==> queue == Consumed(v) + rest
    decreases v, 1, 0
  {
    match v
    case LuaTable(_) =>
      PartsAreWalked(v);
      BindsParts(v, |Walked(v)|, queue, rest);
      TableBindsWhole(v, queue, rest);
    case LuaFunction(id) =>
      assert queue != [] ==> queue == [queue[0]] + queue[1..];
      assert queue == [id] + rest ==> queue[1..] == rest;
    case _ =>
      assert [] + rest == rest;
  }

  lemma FromAbiTable(val: Value, queue: seq<int>)
    requires val.List? || val.Map?
    ensures var taken := FromParts(val, |Parts(val)|, queue);
      if taken.None? then FromAbi(val, queue).None?
      else FromAbi(val, queue) == Some((Rebuilt(val, taken.value.0), taken.value.1))
  {
    hide FromParts, Parts, Rebuilt;
  }

  lemma TableBindsWhole(v: LuaValue, queue: seq<int>, rest: seq<int>)
    requires v.LuaTable? && (ToAbi(v).List? || ToAbi(v).Map?) && Parts(ToAbi(v)) == ToAbiAll(Walked(v))
    requires BoundUpTo(ToAbi(v), Walked(v), |Walked(v)|, queue, rest)
    ensures FromAbi(ToAbi(v), queue) == Some((Crossed(v), rest)) <==> queue == Consumed(v) + rest
  {
    hide ToAbi, Crossed, CrossedAll, Consumed, ConsumedAll, Flat, Walked, Parts, Rebuilt, FromAbi, FromParts;
    var walked, abi := Walked(v), ToAbi(v);
    assert walked[..|walked|] == walked;
    ConsumedUnfolds(v);
    FromAbiTable(abi, queue);
    var taken := FromParts(abi, |walked|, queue);
    if taken.Some? {
      PartsMeant(v, queue);
      TableBinds(v, taken.value.0);
    }
  }

  lemma PartsMeant(v: LuaValue, queue: seq<int>)
    requires v.LuaTable? && Parts(ToAbi(v)) == ToAbiAll(Walked(v))
    requires FromParts(ToAbi(v), |Walked(v)|, queue).Some?
    ensures SameNils(FromParts(ToAbi(v), |Walked(v)|, queue).value.0, CrossedAll(Walked(v)))
  {
    var walked := Walked(v);
    PartsNils(ToAbi(v), |walked|, queue);
    forall i | 0 <= i < |walked| ensures Parts(ToAbi(v))[i] == Nil <==> CrossedAll(walked)[i] == LuaNil {
      NilCrossesAsNil(walked[i]);
    }
  }

  lemma AllAppend(vs: seq<LuaValue>, k: nat)
    requires 0 < k <= |vs|
    ensures Flat(ConsumedAll(vs[..k])) == Flat(ConsumedAll(vs[..k - 1])) + Consumed(vs[k - 1])
    ensures CrossedAll(vs[..k]) == CrossedAll(vs[..k - 1]) + [Crossed(vs[k - 1])]
  {
    hide Consumed, Crossed;
    assert ConsumedAll(vs[..k]) == ConsumedAll(vs[..k - 1]) + [Consumed(vs[k - 1])];
    FlatAppend(ConsumedAll(vs[..k - 1]), Consumed(vs[k - 1]));
  }

  /** The first `k + 1` parts come out so exactly when the first `k` do and the next follows. */
  lemma FromPartsStep(val: Value, k: nat, queue: seq<int>, before: seq<LuaValue>, part: LuaValue, rest: seq<int>)
    requires k < |Parts(val)|
    ensures FromParts(val, k + 1, queue) == Some((before + [part], rest)) <==>
      FromParts(val, k, queue).Some? && FromParts(val, k, queue).value.0 == before &&
      FromAbi(Parts(val)[k], FromParts(val, k, queue).value.1) == Some((part, rest))
  {
    hide FromAbi;
    if FromParts(val, k + 1, queue) == Some((before + [part], rest)) {
      var taken := FromParts(val, k, queue).value;
      PrefixesAgree(taken.0, FromAbi(Parts(val)[k], taken.1).value.0, before, part);
    }
  }

  /** What the first `k` walked children come to, and the queues they come to it from. */
  ghost predicate BoundUpTo(abi: Value, walked: seq<LuaValue>, k: nat, queue: seq<int>, rest: seq<int>)
    requires k <= |walked| && |Parts(abi)| == |walked|
  {
    FromParts(abi, k, queue) == Some((CrossedAll(walked[..k]), rest)) <==>
      queue == Flat(ConsumedAll(walked[..k])) + rest
  }

  ghost predicate BoundOne(abi: Value, v: LuaValue, queue: seq<int>, rest: seq<int>) {
    FromAbi(abi, queue) == Some((Crossed(v), rest)) <==> queue == Consumed(v) + rest
  }

  lemma BoundStep(abi: Value, walked: seq<LuaValue>, k: nat, queue: seq<int>, rest: seq<int>)
    requires k < |walked| && |Parts(abi)| == |walked|
    requires forall mid :: BoundUpTo(abi, walked, k, queue, mid)
    requires forall mid :: BoundOne(Parts(abi)[k], walked[k], mid, rest)
    ensures BoundUpTo(abi, walked, k + 1, queue, rest)
  {
    hide Crossed, Consumed, Parts, FromAbi, FromParts, Flat, CrossedAll, ConsumedAll;
    var before, flat, own := CrossedAll(walked[..k]), Flat(ConsumedAll(walked[..k])), Consumed(walked[k]);
    AllAppend(walked, k + 1);
    FromPartsStep(abi, k, queue, before, Crossed(walked[k]), rest);
    assert (flat + own) + rest == flat + (own + rest);
    assert BoundUpTo(abi, walked, k, queue, own + rest);
    assert BoundOne(Parts(abi)[k], walked[k], own + rest, rest);
    var taken := FromParts(abi, k, queue);
    if taken.Some? {
      assert BoundUpTo(abi, walked, k, queue, taken.value.1);
      assert BoundOne(Parts(abi)[k], walked[k], taken.value.1, rest);
    }
  }

  lemma BoundNothing(abi: Value, walked: seq<LuaValue>, queue: seq<int>, rest: seq<int>)
    requires |Parts(abi)| == |walked|
    ensures BoundUpTo(abi, walked, 0, queue, rest)
  {
    assert Flat(ConsumedAll(walked[..0])) + rest == rest;
  }

  /** One walked child, whatever the queue it starts from. */
  lemma BindsKid(v: LuaValue, j: nat, rest: seq<int>)
    requires v.LuaTable? && j < |Walked(v)| && Parts(ToAbi(v)) == ToAbiAll(Walked(v))
    ensures forall mid :: BoundOne(Parts(ToAbi(v))[j], Walked(v)[j], mid, rest)
    decreases v, 0, 0
  {
    hide ToAbi, Crossed, Consumed, Walked, Kids, KeyOrder, Parts, FromAbi, Walk;
    KidAt(v, j);
    var keys := KeyOrder(v.entries.Keys);
    forall mid ensures BoundOne(Parts(ToAbi(v))[j], Walked(v)[j], mid, rest) {
      Binds(v.entries[keys[Walk(keys)[j]]], mid, rest);
    }
  }

  lemma {:induction false} BindsParts(v: LuaValue, k: nat, queue: seq<int>, rest: seq<int>)
    requires v.LuaTable? && k <= |Walked(v)| && Parts(ToAbi(v)) == ToAbiAll(Walked(v))
    ensures BoundUpTo(ToAbi(v), Walked(v), k, queue, rest)
    decreases v, 0, k
  {
    hide ToAbi, Crossed, Consumed, Walked, Kids, KeyOrder, Parts, FromAbi, FromParts, Walk, Flat, BoundUpTo, BoundOne;
    if k == 0 {
      BoundNothing(ToAbi(v), Walked(v), queue, rest);
    } else {
      var j := k - 1;
      forall mid ensures BoundUpTo(ToAbi(v), Walked(v), j, queue, mid) {
        BindsParts(v, j, queue, mid);
      }
      BindsKid(v, j, rest);
      BoundStep(ToAbi(v), Walked(v), j, queue, rest);
    }
  }

  lemma PrefixesAgree<T>(a: seq<T>, x: T, b: seq<T>, y: T)
    requires a + [x] == b + [y]
    ensures a == b && x == y
  {
    assert |a| == |b|;
    assert (a + [x])[|a|] == x && (b + [y])[|b|] == y;
    assert a == (a + [x])[..|a|] && b == (b + [y])[..|b|];
  }

  // ---------------------------------------------------------------- when both traversals agree

  /** Those of the positions `ps` whose block is not empty. */
  ghost function Bearing(blocks: seq<seq<int>>, ps: seq<int>): seq<int>
    requires forall i :: 0 <= i < |ps| ==> 0 <= ps[i] < |blocks|
  {
    if ps == [] then []
    else if blocks[ps[0]] == [] then Bearing(blocks, ps[1..])
    else [ps[0]] + Bearing(blocks, ps[1..])
  }

  /**
   * In every table, the entries that hold functions survive, and they are walked in the order
   * in which they were converted.
   */
  ghost predicate Orderly(v: LuaValue)
    decreases v
  {
    v.LuaTable? ==>
      var keys := KeyOrder(v.entries.Keys);
      && Bearing(StashedAll(Kids(v)), Walk(keys)) == Bearing(StashedAll(Kids(v)), Iota(|keys|))
      && forall i :: 0 <= i < |Walk(keys)| ==> Orderly(v.entries[keys[Walk(keys)[i]]])
  }

  lemma {:induction false} FlatBearing(blocks: seq<seq<int>>, ps: seq<int>)
    requires forall i :: 0 <= i < |ps| ==> 0 <= ps[i] < |blocks|
    ensures forall i :: 0 <= i < |Bearing(blocks, ps)| ==> 0 <= Bearing(blocks, ps)[i] < |blocks|
    ensures Flat(Pick(blocks, ps)) == Flat(Pick(blocks, Bearing(blocks, ps)))
  {
    if ps != [] {
      FlatBearing(blocks, ps[1..]);
      assert Pick(blocks, ps)[1..] == Pick(blocks, ps[1..]);
      var rest := Bearing(blocks, ps[1..]);
      if blocks[ps[0]] != [] {
        assert ([ps[0]] + rest)[1..] == rest;
        assert Pick(blocks, [ps[0]] + rest) == [blocks[ps[0]]] + Pick(blocks, rest);
      }
    }
  }

  /** An orderly value's functions are walked in just the order they are stashed. */
  lemma {:induction false} OrderlyConsumes(v: LuaValue)
    requires Orderly(v)
    ensures Consumed(v) == Stashed(v)
    decreases v
  {
    if v.LuaTable? {
      var keys, stashed := KeyOrder(v.entries.Keys), StashedAll(Kids(v));
      var walk := Walk(keys);
      forall i | 0 <= i < |walk| ensures Consumed(Walked(v)[i]) == stashed[walk[i]] {
        KidAt(v, i);
        OrderlyConsumes(v.entries[keys[walk[i]]]);
      }
      ConsumedUnfolds(v);
      StashedUnfolds(v);
      assert ConsumedAll(Walked(v)) == Pick(stashed, walk);
      FlatBearing(stashed, walk);
      FlatBearing(stashed, Iota(|keys|));
      assert Pick(stashed, Iota(|keys|)) == stashed;
    }
  }

  lemma {:induction false} FlatHas(blocks: seq<seq<int>>, x: int)
    ensures x in Flat(blocks) <==> exists p :: 0 <= p < |blocks| && x in blocks[p]
  {
    if blocks != [] {
      FlatHas(blocks[1..], x);
      assert forall p :: 0 < p < |blocks| ==> blocks[p] == blocks[1..][p - 1];
      if x in Flat(blocks[1..]) {
        var p :| 0 <= p < |blocks[1..]| && x in blocks[1..][p];
        assert x in blocks[p + 1];
      }
    }
  }

  ghost predicate Apart(a: seq<int>, b: seq<int>) {
    forall x :: x in a ==> x !in b
  }

  lemma DistinctParts(a: seq<int>, b: seq<int>)
    requires Distinct(a + b)
    ensures Distinct(a) && Distinct(b) && Apart(a, b)
  {
    var s := a + b;
    forall i, j | 0 <= i < j < |a| ensures a[i] != a[j] { assert s[i] != s[j]; }
    forall i, j | 0 <= i < j < |b| ensures b[i] != b[j] { assert s[|a| + i] != s[|a| + j]; }
    forall x | x in a ensures x !in b {
      var i :| 0 <= i < |a| && a[i] == x;
      forall j | 0 <= j < |b| ensures b[j] != x { assert s[i] != s[|a| + j]; }
    }
  }

  lemma {:induction false} FlatDistinct(blocks: seq<seq<int>>)
    requires Distinct(Flat(blocks))
    ensures forall p :: 0 <= p < |blocks| ==> Distinct(blocks[p])
    ensures forall p, q :: 0 <= p < |blocks| && 0 <= q < |blocks| && p != q ==> Apart(blocks[p], blocks[q])
  {
    if blocks != [] {
      var rest := blocks[1..];
      DistinctParts(blocks[0], Flat(rest));
      FlatDistinct(rest);
      forall q | 0 < q < |blocks|
        ensures Distinct(blocks[q]) && Apart(blocks[0], blocks[q]) && Apart(blocks[q], blocks[0])
      {
        assert blocks[q] == rest[q - 1];
        forall x | x in blocks[q] ensures x !in blocks[0] { FlatHas(rest, x); }
      }
      forall p, q | 0 < p < |blocks| && 0 < q < |blocks| && p != q ensures Apart(blocks[p], blocks[q]) {
        assert blocks[p] == rest[p - 1] && blocks[q] == rest[q - 1];
      }
    }
  }

  lemma {:induction false} ConsumedWithin(v: LuaValue, x: int)
    requires x in Consumed(v)
    ensures x in Stashed(v)
    decreases v
  {
    if v.LuaTable? {
      var keys := KeyOrder(v.entries.Keys);
      ConsumedUnfolds(v);
      StashedUnfolds(v);
      FlatHas(ConsumedAll(Walked(v)), x);
      var i :| 0 <= i < |Walked(v)| && x in ConsumedAll(Walked(v))[i];
      KidAt(v, i);
      ConsumedWithin(v.entries[keys[Walk(keys)[i]]], x);
      assert x in StashedAll(Kids(v))[Walk(keys)[i]];
      FlatHas(StashedAll(Kids(v)), x);
    }
  }

  /** Blocks drawn in two orders, matched up from the front. */
  lemma {:induction false} Peel(s: seq<seq<int>>, c: seq<seq<int>>, ws: seq<int>, ps: seq<int>)
    requires |c| == |s|
    requires forall i :: 0 <= i < |ws| ==>
      0 <= ws[i] < |s| && |c[ws[i]]| == |s[ws[i]]| && forall x <- c[ws[i]] :: x in s[ws[i]]
    requires forall i :: 0 <= i < |ps| ==> 0 <= ps[i] < |s|
    requires forall p, q :: 0 <= p < |s| && 0 <= q < |s| && p != q ==> Apart(s[p], s[q])
    requires Flat(Pick(c, ws)) == Flat(Pick(s, ps))
    ensures Bearing(s, ws) == Bearing(s, ps)
    ensures forall i :: 0 <= i < |ws| ==> c[ws[i]] == s[ws[i]]
    decreases |ws| + |ps|
  {
    var left, right := Pick(c, ws), Pick(s, ps);
    if ws != [] && s[ws[0]] == [] {
      assert left[1..] == Pick(c, ws[1..]) && Flat(left) == Flat(left[1..]);
      Peel(s, c, ws[1..], ps);
      assert forall i :: 0 < i < |ws| ==> ws[i] == ws[1..][i - 1];
    } else if ps != [] && s[ps[0]] == [] {
      assert right[1..] == Pick(s, ps[1..]) && Flat(right) == Flat(right[1..]);
      Peel(s, c, ws, ps[1..]);
    } else if ws != [] && ps != [] {
      var w, p := ws[0], ps[0];
      assert left[1..] == Pick(c, ws[1..]) && right[1..] == Pick(s, ps[1..]);
      assert Flat(left) == c[w] + Flat(left[1..]) && Flat(right) == s[p] + Flat(right[1..]);
      assert c[w][0] == Flat(left)[0] == Flat(right)[0] == s[p][0];
      assert c[w][0] in c[w] && s[p][0] in s[p] && !Apart(s[w], s[p]);
      assert w == p;
      FrontsAgree(c[w], Flat(left[1..]), s[p], Flat(right[1..]));
      Peel(s, c, ws[1..], ps[1..]);
      assert forall i :: 0 < i < |ws| ==> ws[i] == ws[1..][i - 1];
    }
  }

  lemma FrontsAgree(a: seq<int>, x: seq<int>, b: seq<int>, y: seq<int>)
    requires a + x == b + y && |a| == |b|
    ensures a == b && x == y
  {
    assert a == (a + x)[..|a|] && b == (b + y)[..|b|];
    assert x == (a + x)[|a|..] && y == (b + y)[|b|..];
  }

  /** If the walked blocks come to the same as all of them, each walked block is whole. */
  lemma WholeBlocks(s: seq<seq<int>>, c: seq<seq<int>>, ws: seq<int>, i: nat)
    requires |c| == |s| && i < |ws| && Distinct(ws)
    requires forall k :: 0 <= k < |ws| ==> 0 <= ws[k] < |s|
    requires forall k, x :: 0 <= k < |ws| && x in c[ws[k]] ==> x in s[ws[k]]
    requires Distinct(Flat(s)) && Flat(Pick(c, ws)) == Flat(s)
    ensures |c[ws[i]]| == |s[ws[i]]|
  {
    var p := ws[i];
    FlatDistinct(s);
    FlatDistinct(Pick(c, ws));
    assert Pick(c, ws)[i] == c[p];
    forall x ensures x in c[p] <==> x in s[p] {
      if x in s[p] {
        FlatHas(s, x);
        FlatHas(Pick(c, ws), x);
        var k :| 0 <= k < |ws| && x in Pick(c, ws)[k];
        assert x in s[ws[k]];
        assert Apart(s[ws[k]], s[p]) || ws[k] == p;
        assert k == i;
      }
    }
    MemberCount(c[p]);
    MemberCount(s[p]);
    assert Members(c[p]) == Members(s[p]);
  }

  /** Where no function occurs twice, only an orderly value is walked as it was stashed. */
  lemma {:induction false} ConsumesOrderly(v: LuaValue)
    requires Distinct(Stashed(v)) && Consumed(v) == Stashed(v)
    ensures Orderly(v)
    decreases v
  {
    if v.LuaTable? {
      var keys, s, c := KeyOrder(v.entries.Keys), StashedAll(Kids(v)), ConsumedAll(Kids(v));
      var walk := Walk(keys);
      ConsumedUnfolds(v);
      StashedUnfolds(v);
      WalkDistinct(keys);
      assert ConsumedAll(Walked(v)) == Pick(c, walk);
      forall k, x | 0 <= k < |walk| && x in c[walk[k]] ensures x in s[walk[k]] {
        ConsumedWithin(Kids(v)[walk[k]], x);
      }
      forall i | 0 <= i < |walk| ensures |c[walk[i]]| == |s[walk[i]]| {
        WholeBlocks(s, c, walk, i);
      }
      FlatDistinct(s);
      assert Pick(s, Iota(|keys|)) == s;
      Peel(s, c, walk, Iota(|keys|));
      forall i | 0 <= i < |walk| ensures Orderly(v.entries[keys[walk[i]]]) {
        KidAt(v, i);
        assert s[walk[i]] == Stashed(v.entries[keys[walk[i]]]) && c[walk[i]] == Consumed(v.entries[keys[walk[i]]]);
        ConsumesOrderly(v.entries[keys[walk[i]]]);
      }
    }
  }

  /** Whatever else is in the queue behind them, an orderly value's functions come back under their keys. */
  lemma OrderlyCrosses(v: LuaValue, rest: seq<int>)
    requires Orderly(v)
    ensures FromAbi(ToAbi(v), Stashed(v) + rest) == Some((Crossed(v), rest))
  {
    OrderlyConsumes(v);
    Binds(v, Stashed(v) + rest, rest);
  }

  /**
   * A value whose functions are all different comes back with each under its own key, and the
   * queue left empty, exactly when it is orderly.
   */
  lemma CrossesIff(v: LuaValue)
    requires Distinct(Stashed(v))
    ensures FromAbi(ToAbi(v), Stashed(v)) == Some((Crossed(v), [])) <==> Orderly(v)
  {
    Binds(v, Stashed(v), []);
    assert Consumed(v) + [] == Consumed(v);
    if Orderly(v) {
      OrderlyConsumes(v);
    } else if Consumed(v) == Stashed(v) {
      ConsumesOrderly(v);
    }
  }

  // ---------------------------------------------------------------- values that cross whole

  /** Text throughout, no nil entry, and every table either dense or keyed by text alone. */
  ghost predicate Plain(v: LuaValue)
    decreases v
  {
    match v
    case LuaStr(name) => name.Text?
    case LuaOther => false
    case LuaTable(_) =>
      var keys := KeyOrder(v.entries.Keys);
      && (Dense(keys) || TextKeyed(v.entries.Keys))
      && forall key <- v.entries :: v.entries[key] != LuaNil && Plain(v.entries[key])
    case _ => true
  }

  ghost predicate TextKeyed(keys: set<Key>) {
    forall key <- keys :: key.StrKey? && key.name.Text?
  }

  lemma HeadFirst<T(!new)>(le: (T, T) -> bool, s: seq<T>, x: T)
    requires SortedBy(le, s) && x in s
    ensures x == s[0] || le(s[0], x)
  {
    var i :| 0 <= i < |s| && s[i] == x;
  }

  lemma TailMembers<T>(s: seq<T>, x: T)
    requires Distinct(s) && s != []
    ensures x in s[1..] <==> x in s && x != s[0]
  {
    assert s == [s[0]] + s[1..];
  }

  /** There is one way to put the same things in a total order. */
  lemma {:induction false} SortedUnique<T(!new)>(le: (T, T) -> bool, a: seq<T>, b: seq<T>)
    requires forall x, y :: le(x, y) && le(y, x) ==> x == y
    requires SortedBy(le, a) && SortedBy(le, b) && Distinct(a) && Distinct(b)
    requires forall x :: x in a <==> x in b
    ensures a == b
  {
    MemberCount(a);
    MemberCount(b);
    assert Members(a) == Members(b);
    if a != [] {
      HeadFirst(le, a, b[0]);
      HeadFirst(le, b, a[0]);
      forall x ensures x in a[1..] <==> x in b[1..] {
        TailMembers(a, x);
        TailMembers(b, x);
      }
      SortedUnique(le, a[1..], b[1..]);
      assert a == [a[0]] + a[1..] && b == [b[0]] + b[1..];
    }
  }

  ghost function Texts(keys: seq<Key>): (texts: seq<string>)
    requires forall i :: 0 <= i < |keys| ==> keys[i].StrKey? && keys[i].name.Text?
    ensures |texts| == |keys| && forall i :: 0 <= i < |keys| ==> texts[i] == keys[i].name.text
  {
    seq(|keys|, i requires 0 <= i < |keys| => keys[i].name.text)
  }

  lemma TextsSorted(keys: seq<Key>)
    requires forall i :: 0 <= i < |keys| ==> keys[i].StrKey? && keys[i].name.Text?
    requires Distinct(keys) && SortedBy(KeyLeq, keys)
    ensures Distinct(Texts(keys)) && SortedBy(NameLeq, Texts(keys))
  {
    var texts := Texts(keys);
    forall i, j | 0 <= i < j < |texts| ensures texts[i] != texts[j] && NameLeq(texts[i], texts[j]) {
      assert keys[i] != keys[j] && KeyLeq(keys[i], keys[j]);
      assert Rank(keys[i])[1..] == Codes(texts[i]) && Rank(keys[j])[1..] == Codes(texts[j]);
    }
  }

  ghost predicate LabelledBy(keys: seq<Key>, labels: seq<string>) {
    |labels| == |keys| && Distinct(labels) && forall i :: 0 <= i < |keys| ==> Label(keys, i) == Some(labels[i])
  }

  /** Where every entry has a label of its own, each survives at its own place. */
  lemma AllSurvive(keys: seq<Key>, labels: seq<string>)
    requires LabelledBy(keys, labels)
    ensures forall i :: 0 <= i < |keys| ==> labels[i] in Survivors(keys) && Survivors(keys)[labels[i]] == i
    ensures forall s :: s in labels <==> s in Survivors(keys)
  {
    SurvivorsHold(keys, |keys|);
    var at := Survivors(keys);
    hide Survivors;
    forall i | 0 <= i < |keys| ensures labels[i] in at && at[labels[i]] == i {
      assert Label(keys, i) == Some(labels[i]) && Label(keys, at[labels[i]]) == Some(labels[i]);
      assert labels[at[labels[i]]] == labels[i];
    }
    forall s ensures s in labels <==> s in at {
      if s in at {
        assert Label(keys, at[s]) == Some(s) && labels[at[s]] == s;
      }
    }
  }

  /** Text keys are converted in the order a map of them is walked. */
  lemma TextKeysInOrder(keys: seq<Key>)
    requires forall i :: 0 <= i < |keys| ==> keys[i].StrKey? && keys[i].name.Text?
    requires Distinct(keys) && SortedBy(KeyLeq, keys) && !Dense(keys)
    ensures Walk(keys) == Iota(|keys|)
  {
    TextLabels(keys);
    hide Survivors, Texts, SortedKeys, SortedBy, KeyLeq;
  }

  lemma TextLabels(keys: seq<Key>)
    requires forall i :: 0 <= i < |keys| ==> keys[i].StrKey? && keys[i].name.Text?
    requires Distinct(keys) && SortedBy(KeyLeq, keys)
    ensures SortedKeys(Survivors(keys).Keys) == Texts(keys)
    ensures forall i :: 0 <= i < |keys| ==>
      Texts(keys)[i] in Survivors(keys) && Survivors(keys)[Texts(keys)[i]] == i
  {
    TextsSorted(keys);
    assert LabelledBy(keys, Texts(keys));
    AllSurvive(keys, Texts(keys));
    NameOrder();
    SortedKeysOrdered(Survivors(keys).Keys);
    hide Survivors, Texts, KeyLeq, SortedKeys, SortedBy, Distinct, NameLeq;
    SortedUnique(NameLeq, Texts(keys), SortedKeys(Survivors(keys).Keys));
  }

  lemma TextKeyedSeq(v: LuaValue)
    requires v.LuaTable? && TextKeyed(v.entries.Keys)
    ensures forall i :: 0 <= i < |KeyOrder(v.entries.Keys)| ==>
      KeyOrder(v.entries.Keys)[i].StrKey? && KeyOrder(v.entries.Keys)[i].name.Text?
    ensures Distinct(KeyOrder(v.entries.Keys)) && SortedBy(KeyLeq, KeyOrder(v.entries.Keys))
  {
    KeyOrderSorted(v.entries.Keys);
  }

  /** A plain table's children all survive and are walked in the order they are converted. */
  lemma PlainWalk(v: LuaValue)
    requires v.LuaTable? && (Dense(KeyOrder(v.entries.Keys)) || TextKeyed(v.entries.Keys))
    ensures Walk(KeyOrder(v.entries.Keys)) == Iota(|Kids(v)|)
  {
    if !Dense(KeyOrder(v.entries.Keys)) {
      TextKeyedSeq(v);
      TextKeysInOrder(KeyOrder(v.entries.Keys));
    }
  }

  lemma {:induction false} PlainOrderly(v: LuaValue)
    requires Plain(v)
    ensures Orderly(v)
    decreases v
  {
    if v.LuaTable? {
      PlainWalk(v);
      var keys := KeyOrder(v.entries.Keys);
      hide Walk, KeyOrder, StashedAll, Bearing, Dense, TextKeyed;
      forall i | 0 <= i < |Walk(keys)| ensures Orderly(v.entries[keys[Walk(keys)[i]]]) {
        PlainOrderly(v.entries[keys[Walk(keys)[i]]]);
      }
    }
  }

  lemma {:induction false} PlainUnchanged(v: LuaValue)
    requires Plain(v)
    ensures Crossed(v) == v
    decreases v
  {
    if v.LuaTable? {
      var keys, kids := KeyOrder(v.entries.Keys), Kids(v);
      forall i | 0 <= i < |kids| ensures CrossedAll(kids)[i] == kids[i] {
        PlainUnchanged(v.entries[keys[i]]);
      }
      assert CrossedAll(kids) == kids;
      CrossedUnfolds(v);
      if Dense(keys) {
        DenseRebuilt(v);
      } else {
        TextRebuilt(v);
      }
    }
  }

  lemma KeyPlace(v: LuaValue, key: Key) returns (i: nat)
    requires v.LuaTable? && key in v.entries
    ensures i < |Kids(v)| && KeyOrder(v.entries.Keys)[i] == key && Kids(v)[i] == v.entries[key]
  {
    KeyOrderSorted(v.entries.Keys);
    i :| 0 <= i < |Kids(v)| && KeyOrder(v.entries.Keys)[i] == key;
  }

  lemma DenseRebuilt(v: LuaValue)
    requires v.LuaTable? && Dense(KeyOrder(v.entries.Keys)) && forall key <- v.entries :: v.entries[key] != LuaNil
    ensures ListTable(Kids(v)) == v
  {
    KeyOrderSorted(v.entries.Keys);
    ListOfEntries(v.entries, KeyOrder(v.entries.Keys), Kids(v));
  }

  lemma ListOfEntries(entries: map<Key, LuaValue>, keys: seq<Key>, vals: seq<LuaValue>)
    requires Dense(keys) && |vals| == |keys| && forall key :: key in keys <==> key in entries
    requires forall i :: 0 <= i < |keys| ==> keys[i] in entries && vals[i] == entries[keys[i]] && vals[i] != LuaNil
    ensures ListEntries(vals) == entries
  {
    ListEntriesAre(vals);
    var back := ListEntries(vals);
    hide ListEntries;
    forall key | key in entries ensures key in back && back[key] == entries[key] {
      var i :| 0 <= i < |keys| && keys[i] == key;
      assert back[IntKey(i + 1)] == vals[i];
    }
    forall key | key in back ensures key in entries {
      assert keys[key.index - 1] == key;
    }
    assert back.Keys == entries.Keys;
  }

  lemma TextRebuilt(v: LuaValue)
    requires v.LuaTable? && TextKeyed(v.entries.Keys)
    requires forall key <- v.entries :: v.entries[key] != LuaNil
    ensures MapTable(Keyed(KeyOrder(v.entries.Keys), Kids(v))) == v
  {
    var keys, kids := KeyOrder(v.entries.Keys), Kids(v);
    var kept := Keyed(keys, kids);
    TextKeyedSeq(v);
    TextsSorted(keys);
    assert LabelledBy(keys, Texts(keys));
    AllSurvive(keys, Texts(keys));
    hide Texts, Survivors, KeyOrder;
    forall key | key in v.entries ensures key.name.text in kept && kept[key.name.text] == v.entries[key] {
      var i := KeyPlace(v, key);
      assert Texts(keys)[i] == key.name.text;
    }
    forall s | s in kept ensures StrKey(Text(s)) in v.entries {
      var i :| 0 <= i < |keys| && Texts(keys)[i] == s;
      assert keys[i] == StrKey(Text(s)) && keys[i] in v.entries;
    }
    KeptIsTable(v.entries, kept);
  }

  lemma KeptIsTable(entries: map<Key, LuaValue>, kept: map<string, LuaValue>)
    requires TextKeyed(entries.Keys) && forall key <- entries :: entries[key] != LuaNil
    requires forall key <- entries :: key.name.text in kept && kept[key.name.text] == entries[key]
    requires forall s <- kept :: StrKey(Text(s)) in entries
    ensures MapTable(kept) == LuaTable(entries)
  {
    var back := MapTable(kept).entries;
    forall key | key in entries ensures key in back && back[key] == entries[key] {
      assert key == StrKey(Text(key.name.text));
    }
    assert back.Keys == entries.Keys;
    assert back == entries;
  }

  /** A plain value crosses and comes back as it was, its functions included, and takes no other's. */
  lemma RoundTrip(v: LuaValue, rest: seq<int>)
    requires Plain(v)
    ensures FromAbi(ToAbi(v), Stashed(v) + rest) == Some((v, rest))
  {
    PlainOrderly(v);
    PlainUnchanged(v);
    OrderlyCrosses(v, rest);
  }

  // ---------------------------------------------------------------- the conversions themselves

  /** What the first `k` entries leave in the map, a later one replacing an earlier of the same text. */
  ghost function KeptUpTo(keys: seq<Key>, vals: seq<Value>, k: nat): map<string, Value>
    requires k <= |keys| && |vals| == |keys|
  {
    SurvivorsHold(keys, k);
    map s | s in SurvivorsUpTo(keys, k) :: vals[SurvivorsUpTo(keys, k)[s]]
  }

  lemma KeptStep(keys: seq<Key>, vals: seq<Value>, k: nat)
    requires k < |keys| && |vals| == |keys|
    ensures KeptUpTo(keys, vals, k + 1) ==
      if Label(keys, k).None? then KeptUpTo(keys, vals, k) else KeptUpTo(keys, vals, k)[Label(keys, k).value := vals[k]]
  {
    SurvivorsHold(keys, k);
    SurvivorsHold(keys, k + 1);
  }

  /** Positive keys only, each with its converted value. */
  ghost predicate Numbered(entries: seq<(int, Value)>, keys: seq<Key>, vals: seq<Value>) {
    && |entries| == |keys| == |vals|
    && forall i :: 0 <= i < |keys| ==> keys[i].Positive() && entries[i] == (keys[i].index, vals[i])
  }

  ghost predicate PositiveApart(entries: seq<(int, Value)>) {
    && (forall i :: 0 <= i < |entries| ==> entries[i].0 >= 1)
    && forall i, j :: 0 <= i < j < |entries| ==> entries[i].0 != entries[j].0
  }

  /** The entries inserted in turn, each under its index in decimal. */
  ghost function Spread(entries: seq<(int, Value)>): map<string, Value>
    requires PositiveApart(entries)
  {
    if entries == [] then map[]
    else
      var last := |entries| - 1;
      Spread(entries[..last])[Decimal(entries[last].0) := entries[last].1]
  }

  ghost function Decimals(entries: seq<(int, Value)>): (labels: seq<string>)
    requires PositiveApart(entries)
    ensures |labels| == |entries| && forall i :: 0 <= i < |entries| ==> labels[i] == Decimal(entries[i].0)
  {
    seq(|entries|, i requires 0 <= i < |entries| => Decimal(entries[i].0))
  }

  lemma DecimalsDistinct(entries: seq<(int, Value)>)
    requires PositiveApart(entries)
    ensures Distinct(Decimals(entries))
  {
    var labels := Decimals(entries);
    forall i, j | 0 <= i < j < |labels| ensures labels[i] != labels[j] {
      if labels[i] == labels[j] {
        DecimalInjective(entries[i].0, entries[j].0);
      }
    }
  }

  ghost function Vals(entries: seq<(int, Value)>): (vals: seq<Value>)
    ensures |vals| == |entries| && forall i :: 0 <= i < |entries| ==> vals[i] == entries[i].1
  {
    seq(|entries|, i requires 0 <= i < |entries| => entries[i].1)
  }

  lemma {:induction false} SpreadIsZip(entries: seq<(int, Value)>)
    requires PositiveApart(entries)
    ensures Spread(entries) == Zip(Decimals(entries), Vals(entries))
  {
    if entries != [] {
      var last := |entries| - 1;
      SpreadIsZip(entries[..last]);
      hide Decimal;
      assert Decimals(entries)[..last] == Decimals(entries[..last]) && Vals(entries)[..last] == Vals(entries[..last]);
    }
  }

  lemma SpreadAre(entries: seq<(int, Value)>)
    requires PositiveApart(entries) && Distinct(Decimals(entries))
    ensures forall s :: s in Spread(entries) <==> s in Decimals(entries)
    ensures forall i :: 0 <= i < |entries| ==> Spread(entries)[Decimals(entries)[i]] == entries[i].1
  {
    SpreadIsZip(entries);
    ZipAre(Decimals(entries), Vals(entries));
  }

  lemma KeyedOver(keys: seq<Key>, vals: seq<Value>, labels: seq<string>)
    requires LabelledBy(keys, labels) && |vals| == |keys|
    ensures forall s :: s in Keyed(keys, vals) <==> s in labels
    ensures forall i :: 0 <= i < |labels| ==> Keyed(keys, vals)[labels[i]] == vals[i]
  {
    AllSurvive(keys, labels);
    hide Survivors;
  }

  lemma DecimalsLabel(entries: seq<(int, Value)>, keys: seq<Key>, vals: seq<Value>)
    requires Numbered(entries, keys, vals) && PositiveApart(entries)
    ensures LabelledBy(keys, Decimals(entries)) && Distinct(Decimals(entries))
    ensures |vals| == |entries| && forall i :: 0 <= i < |entries| ==> entries[i].1 == vals[i]
  {
    DecimalsDistinct(entries);
    assert OnlyIntegers(keys);
  }

  /** With every index a label of its own, the order of insertion does not matter. */
  lemma SpreadIsKeyed(entries: seq<(int, Value)>, mid: nat, keys: seq<Key>, vals: seq<Value>)
    requires Numbered(entries, keys, vals) && PositiveApart(entries) && mid <= |entries|
    ensures Spread(entries[mid..]) + Spread(entries[..mid]) == Keyed(keys, vals)
  {
    hide Keyed, Decimal, Spread, Label, LabelledBy, Zip;
    var labels, low, high := Decimals(entries), entries[..mid], entries[mid..];
    DecimalsLabel(entries, keys, vals);
    KeyedOver(keys, vals, labels);
    DecimalsDistinct(low);
    DecimalsDistinct(high);
    SpreadAre(low);
    SpreadAre(high);
    assert Decimals(low) == labels[..mid] && Decimals(high) == labels[mid..];
    hide Numbered, Decimals;
    JoinedOverLabels(labels, vals, Spread(low), Spread(high), mid);
    SameOverLabels(labels, vals, Spread(high) + Spread(low), Keyed(keys, vals));
  }

  lemma JoinedOverLabels(labels: seq<string>, vals: seq<Value>, low: map<string, Value>, high: map<string, Value>,
                         mid: nat)
    requires mid <= |labels| == |vals| && Distinct(labels)
    requires forall s :: s in low <==> s in labels[..mid]
    requires forall s :: s in high <==> s in labels[mid..]
    requires forall i :: 0 <= i < mid ==> low[labels[..mid][i]] == vals[i]
    requires forall i :: 0 <= i < |labels| - mid ==> high[labels[mid..][i]] == vals[mid + i]
    ensures forall s :: s in high + low <==> s in labels
    ensures forall i :: 0 <= i < |labels| ==> (high + low)[labels[i]] == vals[i]
  {
    assert labels == labels[..mid] + labels[mid..];
    forall i | 0 <= i < |labels| ensures (high + low)[labels[i]] == vals[i] {
      if i < mid {
        assert labels[..mid][i] == labels[i];
      } else {
        assert labels[mid..][i - mid] == labels[i] && labels[i] !in labels[..mid];
      }
    }
  }

  lemma SameOverLabels(labels: seq<string>, vals: seq<Value>, a: map<string, Value>, b: map<string, Value>)
    requires |labels| == |vals|
    requires forall s :: s in a <==> s in labels
    requires forall s :: s in b <==> s in labels
    requires forall i :: 0 <= i < |labels| ==> a[labels[i]] == vals[i] == b[labels[i]]
    ensures a == b
  {
    forall s | s in a ensures a[s] == b[s] {
      var i :| 0 <= i < |labels| && labels[i] == s;
    }
  }

  lemma SpreadStep(entries: seq<(int, Value)>, from: nat, to: nat)
    requires PositiveApart(entries) && from <= to < |entries|
    ensures Spread(entries[from..to + 1]) == Spread(entries[from..to])[Decimal(entries[to].0) := entries[to].1]
  {
    assert entries[from..to + 1][..to - from] == entries[from..to];
  }

  lemma NothingSpread(entries: seq<(int, Value)>)
    requires entries == []
    ensures Spread(entries) == map[]
  {
  }

  /** What the scan for a dense list has sorted out after `k` entries. */
  ghost predicate Sifted(entries: seq<(int, Value)>, k: nat, values: seq<Value>, high: map<string, Value>, dense: bool)
    requires k <= |entries| && PositiveApart(entries)
  {
    && |values| <= k && (dense <==> |values| == k)
    && (forall i :: 0 <= i < |values| ==> entries[i] == (i + 1, values[i]))
    && (!dense ==> entries[|values|].0 != |values| + 1)
    && high == Spread(entries[|values|..k])
  }

  /** Separates the leading run `1..=d` from the entries that keep the table from being a list. */
  method Sift(entries: seq<(int, Value)>) returns (values: seq<Value>, high: map<string, Value>, dense: bool)
    requires PositiveApart(entries)
    ensures Sifted(entries, |entries|, values, high, dense)
  {
    hide Spread, Decimal;
    values, high, dense := [], map[], true;
    NothingSpread(entries[0..0]);
    for k := 0 to |entries|
      invariant Sifted(entries, k, values, high, dense)
    {
      if dense && entries[k].0 == k + 1 {
        NothingSpread(entries[k..k]);
        NothingSpread(entries[k + 1..k + 1]);
        values := values + [entries[k].1];
      } else {
        dense := false;
        SpreadStep(entries, |values|, k);
        high := high[Decimal(entries[k].0) := entries[k].1];
      }
    }
  }

  /** A list when the indices are exactly `1..=n`; otherwise a map, the indices rendered as text. */
  method ListOrMap(entries: seq<(int, Value)>, ghost keys: seq<Key>, ghost vals: seq<Value>) returns (r: Value)
    requires Numbered(entries, keys, vals) && PositiveApart(entries)
    ensures r == TableValue(keys, vals)
  {
    var values, all, dense := Sift(entries);
    if dense {
      assert values == vals;
      return List(values);
    }
    assert keys[|values|] != IntKey(|values| + 1);
    assert entries[|values|..|entries|] == entries[|values|..];
    all := PutBack(entries, values, all);
    SpreadIsKeyed(entries, |values|, keys, vals);
    r := Map(all);
  }

  /** Entries already pushed are carried by the map as well. */
  method PutBack(entries: seq<(int, Value)>, values: seq<Value>, high: map<string, Value>)
    returns (all: map<string, Value>)
    requires PositiveApart(entries) && |values| <= |entries| && high == Spread(entries[|values|..])
    requires forall i :: 0 <= i < |values| ==> entries[i] == (i + 1, values[i])
    ensures all == Spread(entries[|values|..]) + Spread(entries[..|values|])
  {
    hide Spread, Decimal;
    all := high;
    NothingSpread(entries[0..0]);
    for k := 0 to |values|
      invariant all == high + Spread(entries[0..k])
    {
      SpreadStep(entries, 0, k);
      all := all[Decimal(k + 1) := values[k]];
    }
    assert entries[0..|values|] == entries[..|values|];
  }

  /** What the loop over a table's entries has gathered after `k` of them. */
  ghost predicate Gathered(keys: seq<Key>, vals: seq<Value>, k: nat, numbered: seq<(int, Value)>,
                           named: map<string, Value>, onlyIntegers: bool)
    requires k <= |keys| == |vals|
  {
    && (onlyIntegers <==> forall i :: 0 <= i < k ==> keys[i].Positive())
    && (onlyIntegers ==> |numbered| == k && forall i :: 0 <= i < k ==> numbered[i] == (keys[i].index, vals[i]))
    && (if OnlyIntegers(keys) then named == map[] else named == KeptUpTo(keys, vals, k))
  }

  lemma GatherStep(keys: seq<Key>, vals: seq<Value>, k: nat, numbered: seq<(int, Value)>, named: map<string, Value>,
                   onlyIntegers: bool)
    requires k < |keys| == |vals| && Gathered(keys, vals, k, numbered, named, onlyIntegers)
    ensures keys[k].Positive() ==>
      Gathered(keys, vals, k + 1, numbered + [(keys[k].index, vals[k])], named, onlyIntegers)
    ensures keys[k].StrKey? ==> Gathered(keys, vals, k + 1, numbered, named[keys[k].name.Read() := vals[k]], false)
    ensures !keys[k].Positive() && !keys[k].StrKey? ==> Gathered(keys, vals, k + 1, numbered, named, false)
  {
    if !OnlyIntegers(keys) {
      KeptStep(keys, vals, k);
    } else {
      assert keys[k].Positive();
    }
  }

  lemma GatheredAll(keys: seq<Key>, vals: seq<Value>, numbered: seq<(int, Value)>, named: map<string, Value>,
                    onlyIntegers: bool)
    requires |keys| == |vals| && Distinct(keys) && Gathered(keys, vals, |keys|, numbered, named, onlyIntegers)
    ensures onlyIntegers ==> Numbered(numbered, keys, vals) && PositiveApart(numbered)
    ensures !onlyIntegers ==> Map(named) == TableValue(keys, vals)
  {
    if onlyIntegers {
      forall i, j | 0 <= i < j < |numbered| ensures numbered[i].0 != numbered[j].0 {
        assert keys[i] != keys[j];
      }
    } else {
      var i :| 0 <= i < |keys| && !keys[i].Positive();
      assert keys[i] != IntKey(i + 1);
    }
  }

  lemma StashedStep(v: LuaValue, k: nat, first: seq<int>)
    requires v.LuaTable? && k < |Kids(v)|
    ensures first + Flat(StashedAll(Kids(v))[..k + 1]) == (first + Flat(StashedAll(Kids(v))[..k])) + Stashed(Kids(v)[k])
  {
    hide Stashed, Kids, Flat;
    var blocks := StashedAll(Kids(v));
    assert blocks[..k + 1] == blocks[..k] + [blocks[k]];
    FlatAppend(blocks[..k], blocks[k]);
    assert first + (Flat(blocks[..k]) + blocks[k]) == (first + Flat(blocks[..k])) + blocks[k];
  }

  /** The loop over a table's entries: what is gathered, and what has joined the queue. */
  ghost predicate Converting(v: LuaValue, k: nat, first: seq<int>, queue: seq<int>, numbered: seq<(int, Value)>,
                             named: map<string, Value>, onlyIntegers: bool)
    requires v.LuaTable? && k <= |Kids(v)|
  {
    && Gathered(KeyOrder(v.entries.Keys), ToAbiAll(Kids(v)), k, numbered, named, onlyIntegers)
    && queue == first + Flat(StashedAll(Kids(v))[..k])
  }

  lemma ConvertingStarts(v: LuaValue, first: seq<int>)
    requires v.LuaTable?
    ensures Converting(v, 0, first, first, [], map[], true)
  {
    assert StashedAll(Kids(v))[..0] == [];
  }

  lemma ConvertingOn(v: LuaValue, k: nat, first: seq<int>, queue: seq<int>, numbered: seq<(int, Value)>,
                     named: map<string, Value>, onlyIntegers: bool)
    requires v.LuaTable? && k < |Kids(v)| && Converting(v, k, first, queue, numbered, named, onlyIntegers)
    ensures var key := KeyOrder(v.entries.Keys)[k];
      var val, next := ToAbi(v.entries[key]), queue + Stashed(v.entries[key]);
      && (key.Positive() ==> Converting(v, k + 1, first, next, numbered + [(key.index, val)], named, onlyIntegers))
      && (key.StrKey? ==> Converting(v, k + 1, first, next, numbered, named[key.name.Read() := val], false))
      && (!key.Positive() && !key.StrKey? ==> Converting(v, k + 1, first, next, numbered, named, false))
  {
    var key := KeyOrder(v.entries.Keys)[k];
    assert Kids(v)[k] == v.entries[key];
    assert ToAbiAll(Kids(v))[k] == ToAbi(v.entries[key]);
    hide ToAbi, ToAbiAll, Stashed, StashedAll, Flat, Gathered, Kids, KeyOrder, LuaText.Read;
    StashedStep(v, k, first);
    GatherStep(KeyOrder(v.entries.Keys), ToAbiAll(Kids(v)), k, numbered, named, onlyIntegers);
  }

  lemma Converts(v: LuaValue, first: seq<int>, queue: seq<int>, numbered: seq<(int, Value)>,
                 named: map<string, Value>, onlyIntegers: bool)
    requires v.LuaTable? && Converting(v, |Kids(v)|, first, queue, numbered, named, onlyIntegers)
    ensures queue == first + Stashed(v) && ToAbi(v) == TableValue(KeyOrder(v.entries.Keys), ToAbiAll(Kids(v)))
    ensures onlyIntegers ==> Numbered(numbered, KeyOrder(v.entries.Keys), ToAbiAll(Kids(v))) && PositiveApart(numbered)
    ensures !onlyIntegers ==> Map(named) == ToAbi(v)
  {
    assert StashedAll(Kids(v))[..|Kids(v)|] == StashedAll(Kids(v));
    StashedUnfolds(v);
    ToAbiUnfolds(v);
    KeyOrderSorted(v.entries.Keys);
    hide ToAbi, Stashed, Flat, Gathered, Kids, KeyOrder;
    GatheredAll(KeyOrder(v.entries.Keys), ToAbiAll(Kids(v)), numbered, named, onlyIntegers);
  }

  // ---------------------------------------------------------------- rebuilding, step by step

  lemma {:induction false} PartsFail(val: Value, k: nat, n: nat, queue: seq<int>)
    requires k <= n <= |Parts(val)| && FromParts(val, k, queue).None?
    ensures FromParts(val, n, queue).None?
    decreases n
  {
    hide FromAbi, Parts;
    if k < n {
      PartsFail(val, k, n - 1, queue);
    }
  }

  /** The table built from the first `k` parts. */
  ghost function RebuiltUpTo(val: Value, k: nat, parts: seq<LuaValue>): map<Key, LuaValue>
    requires (val.List? || val.Map?) && |parts| == k <= |Parts(val)|
  {
    if val.List? then ListEntries(parts) else MapTable(Zip(SortedKeys(val.entries.Keys)[..k], parts)).entries
  }

  /** The key the next part goes under. */
  function PartKey(val: Value, k: nat): Key
    requires (val.List? || val.Map?) && k < |Parts(val)|
  {
    if val.List? then IntKey(k + 1) else StrKey(Text(SortedKeys(val.entries.Keys)[k]))
  }

  lemma ZipStep<V>(keys: seq<string>, k: nat, vals: seq<V>, val: V)
    requires |vals| == k < |keys|
    ensures Zip(keys[..k + 1], vals + [val]) == Zip(keys[..k], vals)[keys[k] := val]
  {
    assert keys[..k + 1][..k] == keys[..k] && (vals + [val])[..k] == vals;
  }

  lemma RebuiltStep(val: Value, k: nat, parts: seq<LuaValue>, part: LuaValue)
    requires (val.List? || val.Map?) && |parts| == k < |Parts(val)|
    ensures RebuiltUpTo(val, k + 1, parts + [part]) == SetEntry(RebuiltUpTo(val, k, parts), PartKey(val, k), part)
  {
    if val.List? {
      assert (parts + [part])[..k] == parts;
    } else {
      MapRebuiltStep(val, k, parts, part);
    }
  }

  lemma MapRebuiltStep(val: Value, k: nat, parts: seq<LuaValue>, part: LuaValue)
    requires val.Map? && |parts| == k < |Parts(val)|
    ensures RebuiltUpTo(val, k + 1, parts + [part]) == SetEntry(RebuiltUpTo(val, k, parts), PartKey(val, k), part)
  {
    hide SortedKeys, MapTable, SetEntry, Zip;
    var labels := SortedKeys(val.entries.Keys);
    SortedKeysOrdered(val.entries.Keys);
    ZipStep(labels, k, parts, part);
    ZipAre(labels[..k], parts);
    MapTableStep(Zip(labels[..k], parts), labels[k], part);
  }

  lemma MapTableStep(m: map<string, LuaValue>, s: string, val: LuaValue)
    requires s !in m
    ensures MapTable(m[s := val]).entries == SetEntry(MapTable(m).entries, StrKey(Text(s)), val)
  {
    var a, b := MapTable(m[s := val]).entries, SetEntry(MapTable(m).entries, StrKey(Text(s)), val);
    forall key ensures key in a <==> key in b {
      if key.StrKey? && key.name.Text? {
        assert key == StrKey(Text(key.name.text));
      }
    }
  }

  lemma RebuiltAll(val: Value, parts: seq<LuaValue>)
    requires (val.List? || val.Map?) && |parts| == |Parts(val)|
    ensures LuaTable(RebuiltUpTo(val, |parts|, parts)) == Rebuilt(val, parts)
  {
    if val.Map? {
      var labels := SortedKeys(val.entries.Keys);
      assert labels[..|parts|] == labels;
    }
  }

  /** The first `k` parts are in `table`, and the queue is what they left of `first`. */
  ghost predicate Rebuilding(val: Value, k: nat, first: seq<int>, queue: seq<int>, table: map<Key, LuaValue>)
    requires (val.List? || val.Map?) && k <= |Parts(val)|
  {
    var taken := FromParts(val, k, first);
    taken.Some? && taken.value.1 == queue && table == RebuiltUpTo(val, k, taken.value.0)
  }

  lemma RebuildingStarts(val: Value, first: seq<int>)
    requires val.List? || val.Map?
    ensures Rebuilding(val, 0, first, first, map[])
  {
    if val.Map? {
      var none: seq<LuaValue> := [];
      assert Zip(SortedKeys(val.entries.Keys)[..0], none) == map[];
      assert MapTable(map[]).entries.Keys == {};
    }
  }

  lemma RebuildingOn(val: Value, k: nat, first: seq<int>, queue: seq<int>, table: map<Key, LuaValue>)
    requires (val.List? || val.Map?) && k < |Parts(val)| && Rebuilding(val, k, first, queue, table)
    ensures match FromAbi(Parts(val)[k], queue)
      case None => FromAbi(val, first).None?
      case Some((part, rest)) => Rebuilding(val, k + 1, first, rest, SetEntry(table, PartKey(val, k), part))
  {
    var taken := FromAbi(Parts(val)[k], queue);
    if taken.None? {
      PartsFail(val, k + 1, |Parts(val)|, first);
    } else {
      RebuiltStep(val, k, FromParts(val, k, first).value.0, taken.value.0);
    }
  }

  lemma Rebuilds(val: Value, first: seq<int>, queue: seq<int>, table: map<Key, LuaValue>)
    requires (val.List? || val.Map?) && Rebuilding(val, |Parts(val)|, first, queue, table)
    ensures FromAbi(val, first) == Some((LuaTable(table), queue))
  {
    RebuiltAll(val, FromParts(val, |Parts(val)|, first).value.0);
  }

  /** The thread-local queue functions wait in. */
  class FunctionCache {
    var queue: seq<int>

    constructor ()
      ensures queue == []
    {
      queue := [];
    }

    method StashFunction(id: int) returns (r: Value)
      modifies this
      ensures r == Function && queue == old(queue) + [id]
    {
      queue := queue + [id];
      r := Function;
    }

    /** Takes the next function waiting, or reports that none is. */
    method TakeFunction() returns (r: Option<int>)
      modifies this
      ensures old(queue) == [] ==> r.None? && queue == []
      ensures old(queue) != [] ==> r == Some(old(queue)[0]) && queue == old(queue)[1..]
    {
      if queue == [] {
        r := None;
      } else {
        r, queue := Some(queue[0]), queue[1..];
      }
    }

    /** Drops anything a conversion stashed but nobody took. */
    method Clear()
      modifies this
      ensures queue == []
    {
      queue := [];
    }

    /** Converts a Lua value, appending its functions to the queue. */
    method LuaToAbi(v: LuaValue) returns (r: Value)
      modifies this
      ensures r == ToAbi(v) && queue == old(queue) + Stashed(v)
      decreases v, 1
    {
      match v
      case LuaNil => r := Nil;
      case LuaBool(flag) => r := Bool(flag);
      case LuaInt(number) => r := Int(number);
      case LuaFloat(bits) => r := Float(bits);
      case LuaStr(name) => r := Str(name.Read());
      case LuaTable(_) => r := LuaTableToValue(v);
      case LuaFunction(id) => r := StashFunction(id);
      case LuaOther => r := Nil;
    }

    /** Converts a table entry by entry in key order, keeping its shape where it has one. */
    method LuaTableToValue(v: LuaValue) returns (r: Value)
      requires v.LuaTable?
      modifies this
      ensures r == ToAbi(v) && queue == old(queue) + Stashed(v)
      decreases v, 0
    {
      hide ToAbi, Stashed, Converting, Kids, KeyOrder;
      var keys := KeyOrder(v.entries.Keys);
      ghost var first := queue;
      var numbered: seq<(int, Value)>, named: map<string, Value>, onlyIntegers := [], map[], true;
      ConvertingStarts(v, first);
      for k := 0 to |keys|
        invariant Converting(v, k, first, queue, numbered, named, onlyIntegers)
      {
        ConvertingOn(v, k, first, queue, numbered, named, onlyIntegers);
        var converted := LuaToAbi(v.entries[keys[k]]);
        match keys[k]
        case IntKey(index) =>
          if index >= 1 {
            numbered := numbered + [(index, converted)];
          } else {
            onlyIntegers := false;
          }
        case StrKey(name) =>
          onlyIntegers := false;
          named := named[name.Read() := converted];
        case OtherKey(_) =>
          onlyIntegers := false;
      }
      Converts(v, first, queue, numbered, named, onlyIntegers);
      if onlyIntegers {
        r := ListOrMap(numbered, keys, ToAbiAll(Kids(v)));
      } else {
        r := Map(named);
      }
    }

    /** Converts back into Lua, taking each function from the head of the queue. */
    method AbiToLua(val: Value) returns (r: Option<LuaValue>)
      modifies this
      ensures match FromAbi(val, old(queue))
        case None => r.None? && queue == []
        case Some((lua, rest)) => r == Some(lua) && queue == rest
      decreases val, 1
    {
      match val
      case Nil => r := Some(LuaNil);
      case Bool(flag) => r := Some(LuaBool(flag));
      case Int(number) => r := Some(LuaInt(number));
      case Float(bits) => r := Some(LuaFloat(bits));
      case Str(text) => r := Some(LuaStr(Text(text)));
      case Function =>
        var taken := TakeFunction();
        r := if taken.Some? then Some(LuaFunction(taken.value)) else None;
      case _ => r := TableFromParts(val);
    }

    method TableFromParts(val: Value) returns (r: Option<LuaValue>)
      requires val.List? || val.Map?
      modifies this
      ensures match FromAbi(val, old(queue))
        case None => r.None? && queue == []
        case Some((lua, rest)) => r == Some(lua) && queue == rest
      decreases val, 0
    {
      hide FromAbi, Rebuilding, Parts;
      ghost var first := queue;
      var parts := Parts(val);
      var table: map<Key, LuaValue> := map[];
      RebuildingStarts(val, first);
      for k := 0 to |parts|
        invariant Rebuilding(val, k, first, queue, table)
      {
        RebuildingOn(val, k, first, queue, table);
        PartIsSmaller(val, k);
        var part := AbiToLua(parts[k]);
        if part.None? {
          return None;
        }
        table := SetEntry(table, PartKey(val, k), part.value);
      }
      Rebuilds(val, first, queue, table);
      r := Some(LuaTable(table));
    }

    /**
     * A provider's answer carried across: the queue is cleared first, so nothing stale can be
     * bound. An orderly value arrives as meant, with the queue left empty; a plain one unchanged.
     */
    method Carry(v: LuaValue) returns (r: Option<LuaValue>)
      modifies this
      ensures Plain(v) ==> r == Some(v) && queue == []
      ensures Orderly(v) ==> r == Some(Crossed(v)) && queue == []
      ensures Distinct(Stashed(v)) && !Orderly(v) ==> r != Some(Crossed(v)) || queue != []
    {
      hide Plain, Orderly, FromAbi, ToAbi, Stashed, Crossed;
      Clear();
      var val := LuaToAbi(v);
      assert queue == Stashed(v);
      r := AbiToLua(val);
      if Plain(v) {
        RoundTrip(v, []);
        PlainOrderly(v);
        PlainUnchanged(v);
      }
      if Orderly(v) {
        OrderlyCrosses(v, []);
      }
      assert Stashed(v) + [] == Stashed(v);
      if Distinct(Stashed(v)) {
        CrossesIff(v);
      }
    }
  }

  // ---------------------------------------------------------------- tables that do not cross whole

  lemma TwoKeys(a: Key, b: Key)
    requires a != b && KeyLeq(a, b)
    ensures KeyOrder({a, b}) == [a, b]
  {
    forall x, y | KeyLeq(x, y) && KeyLeq(y, x) ensures x == y {
      KeyOrderTotal(x, y);
    }
    KeyOrderSorted({a, b});
    SortedUnique(KeyLeq, KeyOrder({a, b}), [a, b]);
  }

  ghost function TwoFunctions(a: Key, f: int, b: Key, g: int): LuaValue {
    LuaTable(map[a := LuaFunction(f), b := LuaFunction(g)])
  }

  lemma TwoStashed(a: Key, f: int, b: Key, g: int)
    requires a != b && KeyLeq(a, b)
    ensures var v := TwoFunctions(a, f, b, g);
      KeyOrder(v.entries.Keys) == [a, b] && StashedAll(Kids(v)) == [[f], [g]] && Stashed(v) == [f, g]
  {
    var v := TwoFunctions(a, f, b, g);
    assert v.entries.Keys == {a, b};
    TwoKeys(a, b);
    hide KeyOrder, KeyLeq;
    assert Kids(v) == [LuaFunction(f), LuaFunction(g)];
    assert StashedAll(Kids(v)) == [[f], [g]];
    StashedUnfolds(v);
    assert [[f], [g]][1..] == [[g]] && [[g]][1..] == [] && Flat([[g]]) == [g] + Flat([]);
    assert Flat([[f], [g]]) == [f] + Flat([[g]]);
  }

  /** Where every entry holds a function, an orderly table is walked as it was converted. */
  lemma OrderlyWalk(v: LuaValue)
    requires v.LuaTable? && Orderly(v) && forall p :: 0 <= p < |Kids(v)| ==> StashedAll(Kids(v))[p] != []
    ensures Walk(KeyOrder(v.entries.Keys)) == Iota(|Kids(v)|)
  {
    hide KeyOrder, Walk, Kids, StashedAll;
    var blocks, walk := StashedAll(Kids(v)), Walk(KeyOrder(v.entries.Keys));
    BearingAll(blocks, walk);
    BearingAll(blocks, Iota(|Kids(v)|));
  }

  lemma TwoFunctionsMisbind(a: Key, f: int, b: Key, g: int)
    requires a != b && KeyLeq(a, b) && f != g && Walk([a, b]) != [0, 1]
    ensures FromAbi(ToAbi(TwoFunctions(a, f, b, g)), [f, g]) != Some((Crossed(TwoFunctions(a, f, b, g)), []))
    ensures Stashed(TwoFunctions(a, f, b, g)) == [f, g]
  {
    hide KeyOrder, KeyLeq, Kids, StashedAll, Stashed, ToAbi, FromAbi, Crossed, Walk, Orderly;
    TwoStashed(a, f, b, g);
    var v := TwoFunctions(a, f, b, g);
    assert Iota(2) == [0, 1];
    if Orderly(v) {
      OrderlyWalk(v);
    }
    CrossesIff(v);
  }

  lemma {:induction false} BearingAll(blocks: seq<seq<int>>, ps: seq<int>)
    requires forall i :: 0 <= i < |ps| ==> 0 <= ps[i] < |blocks|
    requires forall p :: 0 <= p < |blocks| ==> blocks[p] != []
    ensures Bearing(blocks, ps) == ps
  {
    if ps != [] {
      BearingAll(blocks, ps[1..]);
    }
  }

  /** A table keyed by both 1 and a text loses the numbered entry, but its function stays in the queue. */
  lemma MixedTableMisbinds(f: int, g: int)
    requires f != g
    ensures var v := TwoFunctions(IntKey(1), f, StrKey(Text("a")), g);
      FromAbi(ToAbi(v), Stashed(v)) != Some((Crossed(v), []))
  {
    var a, b := IntKey(1), StrKey(Text("a"));
    assert Rank(a)[0] < Rank(b)[0];
    MixedWalk();
    TwoFunctionsMisbind(a, f, b, g);
  }

  lemma MixedWalk()
    ensures |Walk([IntKey(1), StrKey(Text("a"))])| == 1
  {
    var keys := [IntKey(1), StrKey(Text("a"))];
    assert !keys[1].Positive();
    assert Label(keys, 0) == None && Label(keys, 1) == Some("a");
    assert SurvivorsUpTo(keys, 1) == map[] && SurvivorsUpTo(keys, 2) == map["a" := 1];
    assert keys[1] != IntKey(2);
  }

  lemma TenBeforeTwo()
    ensures Decimal(2) == "2" && Decimal(10) == "10"
    ensures SortedKeys({"2", "10"}) == ["10", "2"]
  {
    assert Decimal(10) == Decimal(1) + "0";
    assert Codes("10")[0] < Codes("2")[0] && NameLeq("10", "2");
    SortedKeysOrdered({"2", "10"});
    NameOrder();
    SortedUnique(NameLeq, SortedKeys({"2", "10"}), ["10", "2"]);
  }

  lemma SparseWalk()
    ensures Walk([IntKey(2), IntKey(10)]) == [1, 0]
  {
    var keys, labels := [IntKey(2), IntKey(10)], ["2", "10"];
    TenBeforeTwo();
    assert keys[0] != IntKey(1);
    assert LabelledBy(keys, labels);
    AllSurvive(keys, labels);
    hide Survivors, NameLeq, SortedKeys, Decimal;
    var at := Survivors(keys);
    assert labels[0] == "2" && labels[1] == "10";
    assert at.Keys == {"2", "10"} by {
      forall s ensures s in at <==> s in {"2", "10"} { assert s in labels <==> s in at; }
    }
  }

  /** A sparse table is stashed by number but walked by text: 2 before 10, then "10" before "2". */
  lemma SparseTableMisbinds(f: int, g: int)
    requires f != g
    ensures var v := TwoFunctions(IntKey(2), f, IntKey(10), g);
      FromAbi(ToAbi(v), Stashed(v)) != Some((Crossed(v), []))
  {
    var a, b := IntKey(2), IntKey(10);
    assert Rank(a)[0] == Rank(b)[0] && Rank(a)[1..][0] < Rank(b)[1..][0];
    SparseWalk();
    TwoFunctionsMisbind(a, f, b, g);
  }
}
