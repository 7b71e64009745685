/** The one dynamic value type that crosses between hosts and plugins. */
module Values {
  import opened Orders
  import opened Distinctness

  /** Floats are kept as their bit patterns; none of them is a NaN. */
  datatype Value =
    | Nil
    | Bool(flag: bool)
    | Int(number: int)
    | Float(bits: int)
    | Str(text: string)
    | List(items: seq<Value>)
    | Map(entries: map<string, Value>)
    | Function

  // ---------------------------------------------------------------- key order

  predicate AtMostAll(k: string, keys: set<string>) {
    forall x <- keys :: NameLeq(k, x)
  }

  lemma {:induction false} LeastExists(keys: set<string>) returns (k: string)
    requires keys != {}
    ensures k in keys && AtMostAll(k, keys)
  {
    NameOrder();
    var x :| x in keys;
    if keys == {x} {
      k := x;
    } else {
      var y := LeastExists(keys - {x});
      k := if NameLeq(x, y) then x else y;
      forall z <- keys ensures NameLeq(k, z) {
        assert z == x || z in keys - {x};
      }
    }
  }

  lemma LeastUnique(keys: set<string>)
    ensures forall a, b :: a in keys && AtMostAll(a, keys) && b in keys && AtMostAll(b, keys) ==> a == b
  {
    NameOrder();
  }

  /** The keys in the order a `BTreeMap` or `BTreeSet` walks them. */
  function SortedKeys(keys: set<string>): (r: seq<string>)
    ensures |r| == |keys|
    ensures forall k :: k in r <==> k in keys
    ensures r != [] ==> AtMostAll(r[0], keys)
  {
    if keys == {} then []
    else
      assert exists k :: k in keys && AtMostAll(k, keys) by {
        var k := LeastExists(keys);
      }
      LeastUnique(keys);
      var k :| k in keys && AtMostAll(k, keys);
      [k] + SortedKeys(keys - {k})
  }

  lemma {:induction false} SortedKeysOrdered(keys: set<string>)
    ensures Distinct(SortedKeys(keys)) && SortedBy(NameLeq, SortedKeys(keys))
  {
    if keys != {} {
      var r := SortedKeys(keys);
      var tail := r[1..];
      SortedKeysOrdered(keys - {r[0]});
      assert tail == SortedKeys(keys - {r[0]});
      forall i, j | 0 <= i < j < |r| ensures r[i] != r[j] && NameLeq(r[i], r[j]) {
        assert r[j] == tail[j - 1] && tail[j - 1] in tail;
        if i > 0 {
          assert r[i] == tail[i - 1];
        }
      }
    }
  }
}
