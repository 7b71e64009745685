/**
 * Values crossing between a Lua state and the host: what either direction makes of a value.
 * Functions carry no data of their own; they wait in a queue, stashed by one traversal of the
 * value and taken back by another.
 */
module LuaValues {
  import opened Wrappers
  import opened Orders
  import opened Sequences
  import opened Distinctness
  import opened Values

  // ---------------------------------------------------------------- Lua values

  /** A Lua string: text, or bytes that are not UTF-8 and read as the empty text. */
  datatype LuaText = Text(text: string) | Garbled(id: int) {
    function Read(): string {
      match this
      case Text(text) => text
      case Garbled(_) => ""
    }
  }

  /** A table key; `OtherKey` stands for floats, booleans, tables, functions and userdata. */
  datatype Key = IntKey(index: int) | StrKey(name: LuaText) | OtherKey(id: int) {
    predicate Positive() {
      IntKey? && index >= 1
    }
  }

  datatype LuaValue =
    | LuaNil
    | LuaBool(flag: bool)
    | LuaInt(number: int)
    | LuaFloat(bits: int)
    | LuaStr(name: LuaText)
    | LuaTable(entries: map<Key, LuaValue>)
    | LuaFunction(id: int)
    | LuaOther

  // ---------------------------------------------------------------- key order

  /** Positive integers ascending, then strings by their text, then the rest. */
  function Rank(k: Key): seq<int> {
    match k
    case IntKey(index) => if index >= 1 then [0, index] else [2, 0, index]
    case StrKey(Text(text)) => [1] + Codes(text)
    case StrKey(Garbled(id)) => [1, -1, id]
    case OtherKey(id) => [2, 1, id]
  }

  predicate KeyLeq(a: Key, b: Key) {
    LexLeq(Rank(a), Rank(b))
  }

  lemma TextRankIsNotNegative(k: Key)
    ensures k.StrKey? && k.name.Text? && |Rank(k)| > 1 ==> Rank(k)[1] >= 0
  {
    if k.StrKey? && k.name.Text? && |Rank(k)| > 1 {
      assert Rank(k)[1] == Codes(k.name.text)[0];
    }
  }

  lemma RankInjective(a: Key, b: Key)
    requires Rank(a) == Rank(b)
    ensures a == b
  {
    assert Rank(a)[0] == Rank(b)[0];
    if a.StrKey? && a.name.Text? && b.name.Text? {
      assert Rank(a)[1..] == Codes(a.name.text) && Rank(b)[1..] == Codes(b.name.text);
      assert |a.name.text| == |b.name.text|;
      assert forall i :: 0 <= i < |a.name.text| ==> Codes(a.name.text)[i] == Codes(b.name.text)[i];
    } else {
      TextRankIsNotNegative(a);
      TextRankIsNotNegative(b);
      assert |Rank(a)| == |Rank(b)|;
      assert |Rank(a)| > 1 ==> Rank(a)[1] == Rank(b)[1];
      assert |Rank(a)| > 2 ==> Rank(a)[2] == Rank(b)[2];
    }
  }

  lemma KeyOrderTotal(a: Key, b: Key)
    ensures KeyLeq(a, b) || KeyLeq(b, a)
    ensures KeyLeq(a, b) && KeyLeq(b, a) ==> a == b
  {
    LexTotal(Rank(a), Rank(b));
    if Rank(a) == Rank(b) {
      RankInjective(a, b);
    }
  }

  predicate FirstKey(k: Key, keys: set<Key>) {
    forall x <- keys :: KeyLeq(k, x)
  }

  lemma {:induction false} FirstKeyExists(keys: set<Key>) returns (k: Key)
    requires keys != {}
    ensures k in keys && FirstKey(k, keys)
  {
    var x :| x in keys;
    KeyOrderTotal(x, x);
    if keys == {x} {
      k := x;
    } else {
      var y := FirstKeyExists(keys - {x});
      KeyOrderTotal(x, y);
      k := if KeyLeq(x, y) then x else y;
      forall z <- keys ensures KeyLeq(k, z) {
        if z != x && k == x {
          assert z in keys - {x};
          LexTransitive(Rank(x), Rank(y), Rank(z));
        }
      }
    }
  }

  /** The keys in the order entries are converted; keys that tie in the original are in a fixed order. */
  function KeyOrder(keys: set<Key>): (r: seq<Key>)
    ensures |r| == |keys|
    ensures forall i :: 0 <= i < |r| ==> r[i] in keys
  {
    if keys == {} then []
    else
      assert exists k :: k in keys && FirstKey(k, keys) by {
        var k := FirstKeyExists(keys);
      }
      assert forall a, b :: a in keys && FirstKey(a, keys) && b in keys && FirstKey(b, keys) ==> a == b by {
        forall a, b | a in keys && FirstKey(a, keys) && b in keys && FirstKey(b, keys) ensures a == b {
          KeyOrderTotal(a, b);
        }
      }
      var k :| k in keys && FirstKey(k, keys);
      [k] + KeyOrder(keys - {k})
  }

  lemma {:induction false} KeyOrderSorted(keys: set<Key>)
    ensures forall k :: k in KeyOrder(keys) <==> k in keys
    ensures Distinct(KeyOrder(keys)) && SortedBy(KeyLeq, KeyOrder(keys))
  {
    if keys != {} {
      var r := KeyOrder(keys);
      var first, tail := r[0], r[1..];
      KeyOrderSorted(keys - {first});
      assert tail == KeyOrder(keys - {first}) && r == [first] + tail;
      forall i, j | 0 <= i < j < |r| ensures r[i] != r[j] && KeyLeq(r[i], r[j]) {
        assert r[j] == tail[j - 1] && tail[j - 1] in tail;
        if i > 0 {
          assert r[i] == tail[i - 1];
        }
      }
    }
  }

  // ---------------------------------------------------------------- decimal text

  /** An integer rendered in decimal. */
  function Decimal(n: nat): (s: string)
    ensures |s| >= 1 && (n >= 10 ==> |s| >= 2)
  {
    if n < 10 then [DIGIT[n]] else Decimal(n / 10) + [DIGIT[n % 10]]
  }

  const DIGIT := "0123456789"

  lemma {:induction false} DecimalInjective(m: nat, n: nat)
    requires Decimal(m) == Decimal(n)
    ensures m == n
  {
    var s, t := Decimal(m), Decimal(n);
    assert s[|s| - 1] == DIGIT[m % 10] && t[|t| - 1] == DIGIT[n % 10];
    assert m % 10 == n % 10;
    if m >= 10 && n >= 10 {
      assert s[..|s| - 1] == Decimal(m / 10) && t[..|t| - 1] == Decimal(n / 10);
      DecimalInjective(m / 10, n / 10);
    }
  }

  // ---------------------------------------------------------------- the shape of a table

  ghost predicate Dense(keys: seq<Key>) {
    forall i :: 0 <= i < |keys| ==> keys[i] == IntKey(i + 1)
  }

  ghost predicate OnlyIntegers(keys: seq<Key>) {
    forall i :: 0 <= i < |keys| ==> keys[i].Positive()
  }

  /** The text an entry is kept under when the table becomes a map, if it is kept at all. */
  ghost function Label(keys: seq<Key>, i: nat): Option<string>
    requires i < |keys|
  {
    match keys[i]
    case IntKey(index) => if OnlyIntegers(keys) && index >= 1 then Some(Decimal(index)) else None
    case StrKey(name) => Some(name.Read())
    case OtherKey(_) => None
  }

  /** The last of the first `k` positions under each label, as inserting in turn leaves it. */
  ghost function SurvivorsUpTo(keys: seq<Key>, k: nat): map<string, int>
    requires k <= |keys|
  {
    if k == 0 then map[]
    else if Label(keys, k - 1).None? then SurvivorsUpTo(keys, k - 1)
    else SurvivorsUpTo(keys, k - 1)[Label(keys, k - 1).value := k - 1]
  }

  lemma {:induction false} SurvivorsHold(keys: seq<Key>, k: nat)
    requires k <= |keys|
    ensures forall s <- SurvivorsUpTo(keys, k) ::
      0 <= SurvivorsUpTo(keys, k)[s] < k && Label(keys, SurvivorsUpTo(keys, k)[s]) == Some(s)
    ensures forall i :: 0 <= i < k && Label(keys, i).Some? ==> Label(keys, i).value in SurvivorsUpTo(keys, k)
  {
    if k > 0 {
      SurvivorsHold(keys, k - 1);
    }
  }

  /** The position each surviving label stands for. */
  ghost function Survivors(keys: seq<Key>): (r: map<string, int>)
    ensures forall s <- r :: 0 <= r[s] < |keys| && Label(keys, r[s]) == Some(s)
  {
    SurvivorsHold(keys, |keys|);
    SurvivorsUpTo(keys, |keys|)
  }

  /** The positions in the order the converted value is walked. */
  ghost function Walk(keys: seq<Key>): (ps: seq<int>)
    ensures forall i :: 0 <= i < |ps| ==> 0 <= ps[i] < |keys|
  {
    if Dense(keys) then Iota(|keys|)
    else
      var labels := SortedKeys(Survivors(keys).Keys);
      assert forall i :: 0 <= i < |labels| ==> labels[i] in Survivors(keys);
      seq(|labels|, i requires 0 <= i < |labels| => Survivors(keys)[labels[i]])
  }

  function Iota(n: nat): (r: seq<int>)
    ensures |r| == n && forall i :: 0 <= i < n ==> r[i] == i
  {
    seq(n, i => i)
  }

  lemma WalkDistinct(keys: seq<Key>)
    ensures Distinct(Walk(keys))
  {
    if !Dense(keys) {
      var labels, at := SortedKeys(Survivors(keys).Keys), Survivors(keys);
      SortedKeysOrdered(at.Keys);
      forall i, j | 0 <= i < j < |labels| ensures Walk(keys)[i] != Walk(keys)[j] {
        assert labels[i] in at && labels[j] in at;
        assert Label(keys, at[labels[i]]) == Some(labels[i]) && Label(keys, at[labels[j]]) == Some(labels[j]);
      }
    }
  }

  /** A table's entries, converted, put together: a list when dense, else what its labels keep. */
  ghost function TableValue(keys: seq<Key>, vals: seq<Value>): Value
    requires |vals| == |keys|
  {
    if Dense(keys) then List(vals) else Map(Keyed(keys, vals))
  }

  ghost function Keyed<V>(keys: seq<Key>, vals: seq<V>): map<string, V>
    requires |vals| == |keys|
  {
    map s | s in Survivors(keys) :: vals[Survivors(keys)[s]]
  }

  // ---------------------------------------------------------------- out of Lua

  /** The value a Lua value crosses as. */
  ghost function ToAbi(v: LuaValue): Value
    decreases v
  {
    match v
    case LuaNil => Nil
    case LuaBool(flag) => Bool(flag)
    case LuaInt(number) => Int(number)
    case LuaFloat(bits) => Float(bits)
    case LuaStr(name) => Str(name.Read())
    case LuaFunction(_) => Function
    case LuaOther => Nil
    case LuaTable(_) =>
      var keys := KeyOrder(v.entries.Keys);
      TableValue(keys, seq(|keys|, i requires 0 <= i < |keys| => ToAbi(v.entries[keys[i]])))
  }

  /** The functions the conversion leaves in the queue, in the order it does. */
  ghost function Stashed(v: LuaValue): seq<int>
    decreases v
  {
    match v
    case LuaFunction(id) => [id]
    case LuaTable(_) =>
      var keys := KeyOrder(v.entries.Keys);
      Flat(seq(|keys|, i requires 0 <= i < |keys| => Stashed(v.entries[keys[i]])))
    case _ => []
  }

  ghost function Pick<T>(s: seq<T>, ps: seq<int>): (r: seq<T>)
    requires forall i :: 0 <= i < |ps| ==> 0 <= ps[i] < |s|
    ensures |r| == |ps|
  {
    seq(|ps|, i requires 0 <= i < |ps| => s[ps[i]])
  }

  /** The functions of what crosses, in the order the value is walked on the way back. */
  ghost function Consumed(v: LuaValue): seq<int>
    decreases v
  {
    match v
    case LuaFunction(id) => [id]
    case LuaTable(_) =>
      var keys := KeyOrder(v.entries.Keys);
      Flat(Pick(seq(|keys|, i requires 0 <= i < |keys| => Consumed(v.entries[keys[i]])), Walk(keys)))
    case _ => []
  }

  /** The Lua value meant to come back: what crossed, every function under its own key. */
  ghost function Crossed(v: LuaValue): LuaValue
    decreases v
  {
    match v
    case LuaStr(name) => LuaStr(Text(name.Read()))
    case LuaOther => LuaNil
    case LuaTable(_) =>
      var keys := KeyOrder(v.entries.Keys);
      CrossedTable(keys, seq(|keys|, i requires 0 <= i < |keys| => Crossed(v.entries[keys[i]])))
    case _ => v
  }

  ghost function CrossedTable(keys: seq<Key>, vals: seq<LuaValue>): LuaValue
    requires |vals| == |keys|
  {
    if Dense(keys) then ListTable(vals) else MapTable(Keyed(keys, vals))
  }

  /** A list's table: setting a key to nil leaves it absent. */
  function ListTable(vals: seq<LuaValue>): LuaValue {
    LuaTable(ListEntries(vals))
  }

  function ListEntries(vals: seq<LuaValue>): map<Key, LuaValue> {
    if vals == [] then map[]
    else
      var last := |vals| - 1;
      SetEntry(ListEntries(vals[..last]), IntKey(last + 1), vals[last])
  }

  function SetEntry(entries: map<Key, LuaValue>, key: Key, val: LuaValue): map<Key, LuaValue> {
    if val == LuaNil then entries - {key} else entries[key := val]
  }

  ghost function MapTable(vals: map<string, LuaValue>): LuaValue {
    LuaTable(map key: Key | key in TextKeys(vals) :: vals[key.name.text])
  }

  ghost function TextKeys(vals: map<string, LuaValue>): (keys: set<Key>)
    ensures forall key <- keys :: key.StrKey? && key.name.Text? && key.name.text in vals
  {
    set s | s in vals && vals[s] != LuaNil :: StrKey(Text(s))
  }

  // ---------------------------------------------------------------- back into Lua

  /** The parts of a list or map in the order they are converted. */
  function Parts(val: Value): seq<Value> {
    match val
    case List(items) => items
    case Map(entries) =>
      var keys := SortedKeys(entries.Keys);
      assert forall i :: 0 <= i < |keys| ==> keys[i] in entries;
      seq(|keys|, i requires 0 <= i < |keys| => entries[keys[i]])
    case _ => []
  }

  lemma PartIsSmaller(val: Value, i: nat)
    requires i < |Parts(val)|
    ensures val.List? || val.Map?
    ensures val.List? ==> Parts(val)[i] == val.items[i]
    ensures val.Map? ==>
      SortedKeys(val.entries.Keys)[i] in val.entries && Parts(val)[i] == val.entries[SortedKeys(val.entries.Keys)[i]]
    ensures val decreases to Parts(val)[i]
  {
  }

  /** A conversion's result and what it leaves in the queue; `None` when it finds the queue empty. */
  type Taken<T> = Option<(T, seq<int>)>

  ghost function FromAbi(val: Value, queue: seq<int>): Taken<LuaValue>
    decreases val, 1, 0
  {
    match val
    case Nil => Some((LuaNil, queue))
    case Bool(flag) => Some((LuaBool(flag), queue))
    case Int(number) => Some((LuaInt(number), queue))
    case Float(bits) => Some((LuaFloat(bits), queue))
    case Str(text) => Some((LuaStr(Text(text)), queue))
    case Function => if queue == [] then None else Some((LuaFunction(queue[0]), queue[1..]))
    case _ =>
      match FromParts(val, |Parts(val)|, queue)
      case None => None
      case Some((parts, rest)) => Some((Rebuilt(val, parts), rest))
  }

  /** The table made of a list's or a map's parts. */
  ghost function Rebuilt(val: Value, parts: seq<LuaValue>): LuaValue
    requires (val.List? || val.Map?) && |parts| == |Parts(val)|
  {
    if val.List? then ListTable(parts) else MapTable(Zip(SortedKeys(val.entries.Keys), parts))
  }

  /** The first `k` parts, converted in turn. */
  ghost function FromParts(val: Value, k: nat, queue: seq<int>): (r: Taken<seq<LuaValue>>)
    requires k <= |Parts(val)|
    ensures r.Some? ==> |r.value.0| == k
    decreases val, 0, k
  {
    if k == 0 then Some(([], queue))
    else
      match FromParts(val, k - 1, queue)
      case None => None
      case Some((before, rest)) =>
        PartIsSmaller(val, k - 1);
        match FromAbi(Parts(val)[k - 1], rest)
        case None => None
        case Some((part, left)) => Some((before + [part], left))
  }

  ghost function Zip<V>(keys: seq<string>, vals: seq<V>): map<string, V>
    requires |keys| == |vals|
  {
    if keys == [] then map[]
    else
      var last := |keys| - 1;
      Zip(keys[..last], vals[..last])[keys[last] := vals[last]]
  }
}
