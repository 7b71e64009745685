/** LuaRocks versions: their order, and what each requirement operator accepts. */
module Rocks {
  import opened Wrappers
  import opened Orders
  import opened Widths

  type u64 = n: nat | n <= U64_MAX

  datatype Ordering = Less | Equal | Greater {
    function Reverse(): Ordering {
      match this
      case Less => Greater
      case Equal => Equal
      case Greater => Less
    }
  }

  datatype Part = Number(n: u64) | Text(text: string)

  /** Components separated by dots, and the `-revision` suffix when there is one. */
  datatype RockVersion = RockVersion(parts: seq<Part>, revision: Option<u64>) {
    function At(i: nat): Part {
      if i < |parts| then parts[i] else Number(0)
    }

    function RevisionOrZero(): u64 {
      match revision
      case Some(r) => r
      case None => 0
    }
  }

  function CompareInts(a: int, b: int): Ordering {
    if a < b then Less else if a == b then Equal else Greater
  }

  function CompareTexts(a: string, b: string): Ordering {
    if a == b then Equal else if NameLeq(a, b) then Less else Greater
  }

  /** A numbered component sorts above a textual one. */
  function CompareParts(a: Part, b: Part): Ordering {
    match (a, b)
    case (Number(m), Number(n)) => CompareInts(m, n)
    case (Text(s), Text(t)) => CompareTexts(s, t)
    case (Number(_), Text(_)) => Greater
    case (Text(_), Number(_)) => Less
  }

  /** The first difference among components `from..to`, missing ones reading as zero. */
  function CompareFrom(a: RockVersion, b: RockVersion, from: nat, to: int): Ordering
    decreases if from < to then to - from else 0
  {
    if from >= to then Equal
    else if CompareParts(a.At(from), b.At(from)) != Equal then CompareParts(a.At(from), b.At(from))
    else CompareFrom(a, b, from + 1, to)
  }

  function Max(a: nat, b: nat): nat {
    if a < b then b else a
  }

  function Compare(a: RockVersion, b: RockVersion): Ordering {
    var parts := CompareFrom(a, b, 0, Max(|a.parts|, |b.parts|));
    if parts != Equal then parts else CompareInts(a.RevisionOrZero(), b.RevisionOrZero())
  }

  /** Compares over the components `b` spells out, and its revision when it has one. */
  function CompareSpecified(a: RockVersion, b: RockVersion): Ordering {
    var parts := CompareFrom(a, b, 0, |b.parts|);
    if parts != Equal then parts
    else
      match (a.revision, b.revision)
      case (_, None) => Equal
      case (None, Some(_)) => Less
      case (Some(r), Some(s)) => CompareInts(r, s)
  }

  const DELETE: char := '\U{7F}'

  /** The exclusive upper bound of `~> v`: its last component, bumped. */
  function NextCompatible(v: RockVersion): RockVersion {
    if v.parts == [] then RockVersion([], None)
    else
      var last := |v.parts| - 1;
      var bumped :=
        match v.parts[last]
        case Number(n) => Number(if n < U64_MAX then n + 1 else U64_MAX)
        case Text(text) => Text(text + [DELETE]);
      RockVersion(v.parts[last := bumped], None)
  }

  datatype Operator = Exactly | Not | Below | AtMost | Above | AtLeast | Compatible

  datatype Constraint = Constraint(operator: Operator, version: RockVersion) {
    predicate Matches(candidate: RockVersion) {
      match operator
      case Exactly => CompareSpecified(candidate, version) == Equal
      case Not => CompareSpecified(candidate, version) != Equal
      case Below => Compare(candidate, version) == Less
      case AtMost => Compare(candidate, version) != Greater
      case Above => Compare(candidate, version) == Greater
      case AtLeast => Compare(candidate, version) != Less
      case Compatible =>
        Compare(candidate, version) != Less && Compare(candidate, NextCompatible(version)) == Less
    }
  }

  // ---------------------------------------------------------------- a total preorder

  lemma PartsOrdered(a: Part, b: Part, c: Part)
    ensures CompareParts(a, b) == Equal <==> a == b
    ensures CompareParts(b, a) == CompareParts(a, b).Reverse()
    ensures CompareParts(a, b) != Greater && CompareParts(b, c) != Greater ==> CompareParts(a, c) != Greater
  {
    NameOrder();
    if a.Text? && b.Text? {
      assert NameLeq(a.text, b.text) || NameLeq(b.text, a.text);
      if c.Text? && NameLeq(a.text, b.text) && NameLeq(b.text, c.text) {
        assert NameLeq(a.text, c.text);
      }
    }
  }

  /** Comparing further than either version reaches changes nothing. */
  lemma {:induction false} WiderCompare(a: RockVersion, b: RockVersion, from: nat, to: int, wider: int)
    requires |a.parts| <= to && |b.parts| <= to <= wider
    ensures CompareFrom(a, b, from, to) == CompareFrom(a, b, from, wider)
    decreases if from < wider then wider - from else 0
  {
    if from < wider {
      WiderCompare(a, b, from + 1, to, wider);
      if from >= to {
        assert CompareParts(a.At(from), b.At(from)) == Equal;
      }
    }
  }

  lemma {:induction false} FromOrdered(a: RockVersion, b: RockVersion, c: RockVersion, from: nat, to: int)
    ensures CompareFrom(b, a, from, to) == CompareFrom(a, b, from, to).Reverse()
    ensures CompareFrom(a, b, from, to) != Greater && CompareFrom(b, c, from, to) != Greater ==>
      CompareFrom(a, c, from, to) != Greater &&
      (CompareFrom(a, c, from, to) == Equal ==> CompareFrom(a, b, from, to) == Equal == CompareFrom(b, c, from, to))
    decreases if from < to then to - from else 0
  {
    if from < to {
      FromOrdered(a, b, c, from + 1, to);
      PartsOrdered(a.At(from), b.At(from), c.At(from));
      PartsOrdered(b.At(from), c.At(from), a.At(from));
      PartsOrdered(c.At(from), a.At(from), b.At(from));
    }
  }

  /**
   * Versions of whatever widths are totally preordered: each equals itself, swapping sides
   * reverses the answer, and being at most is transitive.
   */
  lemma VersionsOrdered(a: RockVersion, b: RockVersion, c: RockVersion)
    ensures Compare(a, a) == Equal
    ensures Compare(b, a) == Compare(a, b).Reverse()
    ensures Compare(a, b) != Greater && Compare(b, c) != Greater ==> Compare(a, c) != Greater
  {
    var width := Max(|a.parts|, Max(|b.parts|, |c.parts|));
    WiderCompare(a, b, 0, Max(|a.parts|, |b.parts|), width);
    WiderCompare(b, a, 0, Max(|a.parts|, |b.parts|), width);
    WiderCompare(b, c, 0, Max(|b.parts|, |c.parts|), width);
    WiderCompare(a, c, 0, Max(|a.parts|, |c.parts|), width);
    FromOrdered(a, b, c, 0, width);
    FromOrdered(a, a, a, 0, Max(|a.parts|, |a.parts|));
  }

  // ---------------------------------------------------------------- what the order is

  /** The component in this place; a version goes on with zeros. */
  ghost function Place(v: RockVersion, i: nat): Part {
    if i < |v.parts| then v.parts[i] else Number(0)
  }

  /** Numbers by size, texts as a dictionary has them, and any text before any number. */
  ghost predicate PartBelow(a: Part, b: Part) {
    match (a, b)
    case (Number(m), Number(n)) => m < n
    case (Text(s), Text(t)) => TextBelow(s, t)
    case (Text(_), Number(_)) => true
    case (Number(_), Text(_)) => false
  }

  /** `a` is the lower version: it is lower where the two first differ, or they differ in the revision alone. */
  ghost predicate Lower(a: RockVersion, b: RockVersion) {
    || (exists k: nat :: LowerAt(a, b, k))
    || ((forall i: nat :: Place(a, i) == Place(b, i)) && Revision(a) < Revision(b))
  }

  ghost predicate LowerAt(a: RockVersion, b: RockVersion, k: nat) {
    (forall i: nat :: i < k ==> Place(a, i) == Place(b, i)) && PartBelow(Place(a, k), Place(b, k))
  }

  /** No revision counts as revision 0. */
  ghost function Revision(v: RockVersion): int {
    match v.revision
    case None => 0
    case Some(r) => r
  }

  lemma PartsCompare(a: Part, b: Part)
    ensures CompareParts(a, b) == Less <==> PartBelow(a, b)
    ensures CompareParts(a, b) == Greater <==> PartBelow(b, a)
  {
    NameOrder();
    if a.Text? && b.Text? {
      NameLeqIff(a.text, b.text);
      NameLeqIff(b.text, a.text);
      NotBelowItself(a.text);
    }
  }

  lemma NotBelowItself(s: string)
    ensures !TextBelow(s, s)
  {
  }

  /** Comparison is that order, in both directions. */
  lemma CompareIff(a: RockVersion, b: RockVersion)
    ensures Compare(a, b) == Less <==> Lower(a, b)
    ensures Compare(a, b) == Greater <==> Lower(b, a)
    ensures Compare(a, b) == Equal <==> !Lower(a, b) && !Lower(b, a)
  {
    var width := Max(|a.parts|, |b.parts|);
    EqualFromIff(a, b, 0, width);
    if CompareFrom(a, b, 0, width) == Equal {
      forall i: nat ensures Place(a, i) == Place(b, i) {
        assert i < width ==> a.At(i) == b.At(i);
      }
      forall k: nat ensures !LowerAt(a, b, k) && !LowerAt(b, a, k) {
        PartsCompare(Place(a, k), Place(b, k));
        PartsOrdered(Place(a, k), Place(b, k), Place(b, k));
      }
    } else {
      var k := FirstDifference(a, b, 0, width);
      assert Place(a, k) != Place(b, k) && forall i: nat :: i < k ==> Place(a, i) == Place(b, i) by {
        assert forall i: nat :: a.At(i) == Place(a, i) && b.At(i) == Place(b, i);
      }
      PartsCompare(Place(a, k), Place(b, k));
      DifferenceDecides(a, b, k);
      DifferenceDecides(b, a, k);
    }
  }

  lemma DifferenceDecides(a: RockVersion, b: RockVersion, k: nat)
    requires Place(a, k) != Place(b, k) && forall i: nat :: i < k ==> Place(a, i) == Place(b, i)
    ensures Lower(a, b) <==> PartBelow(Place(a, k), Place(b, k))
  {
    if PartBelow(Place(a, k), Place(b, k)) {
      assert LowerAt(a, b, k);
    }
    forall n: nat | LowerAt(a, b, n) ensures n == k {
      PartsCompare(Place(a, n), Place(b, n));
      PartsOrdered(Place(a, n), Place(b, n), Place(b, n));
    }
  }

  /** `c` has every component the requirement spells out, and its revision if it spells one out. */
  ghost predicate Equals(c: RockVersion, v: RockVersion) {
    && (forall i :: 0 <= i < |v.parts| ==> Place(c, i) == v.parts[i])
    && (v.revision.Some? ==> c.revision == v.revision)
  }

  /** What each comparing operator accepts. */
  lemma MatchesIff(c: RockVersion, v: RockVersion)
    ensures Constraint(Exactly, v).Matches(c) <==> Equals(c, v)
    ensures Constraint(Not, v).Matches(c) <==> !Equals(c, v)
    ensures Constraint(Below, v).Matches(c) <==> Lower(c, v)
    ensures Constraint(AtMost, v).Matches(c) <==> !Lower(v, c)
    ensures Constraint(Above, v).Matches(c) <==> Lower(v, c)
    ensures Constraint(AtLeast, v).Matches(c) <==> !Lower(c, v)
  {
    CompareIff(c, v);
    ExactlyIff(c, v);
    assert forall i :: 0 <= i < |v.parts| ==> c.At(i) == Place(c, i) && v.At(i) == v.parts[i];
    assert Equals(c, v) <==> Agrees(c, v) && (v.revision.Some? ==> c.revision == v.revision);
    hide Compare, Lower;
  }

  // ---------------------------------------------------------------- equality and `~>`

  ghost predicate AgreesBelow(c: RockVersion, v: RockVersion, k: nat) {
    forall i :: 0 <= i < k ==> c.At(i) == v.At(i)
  }

  /** `c` has every component `v` spells out. */
  ghost predicate Agrees(c: RockVersion, v: RockVersion) {
    AgreesBelow(c, v, |v.parts|)
  }

  lemma {:induction false} EqualFromIff(a: RockVersion, b: RockVersion, from: nat, to: int)
    ensures CompareFrom(a, b, from, to) == Equal <==> (forall i :: from <= i < to ==> a.At(i) == b.At(i))
    decreases if from < to then to - from else 0
  {
    if from < to {
      EqualFromIff(a, b, from + 1, to);
      PartsOrdered(a.At(from), b.At(from), b.At(from));
    }
  }

  /** `== v` accepts exactly the candidates that agree with all of `v`, its revision included when given. */
  lemma ExactlyIff(c: RockVersion, v: RockVersion)
    ensures Constraint(Exactly, v).Matches(c) <==> Agrees(c, v) && (v.revision.Some? ==> c.revision == v.revision)
  {
    EqualFromIff(c, v, 0, |v.parts|);
  }

  /** The comparison is decided at the first component where the two differ. */
  lemma {:induction false} DecidedAt(a: RockVersion, b: RockVersion, from: nat, k: nat, to: int)
    requires from <= k < to
    requires forall i :: from <= i < k ==> a.At(i) == b.At(i)
    requires a.At(k) != b.At(k)
    ensures CompareFrom(a, b, from, to) == CompareParts(a.At(k), b.At(k))
    decreases k - from
  {
    PartsOrdered(a.At(k), b.At(k), b.At(k));
    if from < k {
      PartsOrdered(a.At(from), b.At(from), b.At(from));
      DecidedAt(a, b, from + 1, k, to);
    }
  }

  lemma {:induction false} FirstDifference(a: RockVersion, b: RockVersion, from: nat, to: int) returns (k: nat)
    requires CompareFrom(a, b, from, to) != Equal
    ensures from <= k < to && a.At(k) != b.At(k) && forall i :: from <= i < k ==> a.At(i) == b.At(i)
    ensures CompareFrom(a, b, from, to) == CompareParts(a.At(k), b.At(k))
    decreases if from < to then to - from else 0
  {
    PartsOrdered(a.At(from), b.At(from), b.At(from));
    if a.At(from) != b.At(from) {
      k := from;
    } else {
      k := FirstDifference(a, b, from + 1, to);
    }
  }

  ghost predicate AllNumeric(v: RockVersion) {
    forall i :: 0 <= i < |v.parts| ==> v.parts[i].Number?
  }

  /**
   * `c` reads like a prerelease of the next version after `v`: it spells the bumped version
   * out and then goes on with a textual component after nothing but zeros.
   */
  ghost predicate PrereleaseOfNext(c: RockVersion, v: RockVersion) {
    && AgreesBelow(c, NextCompatible(v), |v.parts|)
    && exists j :: |v.parts| <= j < |c.parts| && c.At(j).Text? &&
         forall i :: |v.parts| <= i < j ==> c.At(i) == Number(0)
  }

  /** The text goes on from `t` with nothing, or with something below the delete character. */
  ghost predicate Continues(s: string, t: string) {
    t <= s && (|s| == |t| || s[|t|] < DELETE)
  }

  lemma {:induction false} LexBetween(s: seq<int>, t: seq<int>, d: int)
    ensures LexLeq(t, s) && LexLeq(s, t + [d]) && s != t + [d] <==> t <= s && (|s| == |t| || s[|t|] < d)
  {
    if t == [] {
      assert s != [] ==> s == [s[0]] + s[1..];
    } else if s != [] {
      assert s == [s[0]] + s[1..] && t == [t[0]] + t[1..] && (t + [d])[1..] == t[1..] + [d];
      LexBetween(s[1..], t[1..], d);
      if s[0] == t[0] {
        assert t <= s <==> t[1..] <= s[1..];
      }
    }
  }

  /** The texts from `t` up to `t` followed by the delete character are its continuations. */
  lemma TextsBetween(s: string, t: string)
    ensures CompareTexts(s, t) != Less && CompareTexts(s, t + [DELETE]) == Less <==> Continues(s, t)
  {
    NameOrder();
    var bound := t + [DELETE];
    assert NameLeq(t, s) || NameLeq(s, t);
    assert Codes(bound) == Codes(t) + [DELETE as int];
    assert s == bound <==> Codes(s) == Codes(bound) by { SameCodes(s, bound); }
    LexBetween(Codes(s), Codes(t), DELETE as int);
    assert t <= s <==> Codes(t) <= Codes(s) by { SamePrefix(t, s); }
  }

  lemma SameCodes(a: string, b: string)
    ensures Codes(a) == Codes(b) ==> a == b
  {
    if Codes(a) == Codes(b) {
      assert |a| == |b| && forall i :: 0 <= i < |a| ==> Codes(a)[i] == Codes(b)[i];
    }
  }

  lemma SamePrefix(a: string, b: string)
    ensures a <= b <==> Codes(a) <= Codes(b)
  {
    if |a| <= |b| {
      SameCodes(a, b[..|a|]);
      assert Codes(b[..|a|]) == Codes(b)[..|a|];
    }
  }

  /** What stands in the place of the last component `v` spells out. */
  ghost predicate InRange(c: RockVersion, v: RockVersion)
    requires v.parts != []
  {
    var last := |v.parts| - 1;
    match v.parts[last]
    case Number(n) => c.At(last) == Number(n)
    case Text(t) => c.At(last).Text? && Continues(c.At(last).text, t)
  }

  /** `v` ends in a component that has a next one. */
  ghost predicate Bumpable(v: RockVersion) {
    v.parts != [] && v.parts[|v.parts| - 1] != Number(U64_MAX)
  }

  lemma BumpedBounds(a: Part, b: Part)
    requires b != Number(U64_MAX)
    ensures var next := match b case Number(n) => Number(n + 1) case Text(t) => Text(t + [DELETE]);
      CompareParts(a, b) != Less && CompareParts(a, next) == Less <==>
        match b
        case Number(n) => a == b
        case Text(t) => a.Text? && Continues(a.text, t)
  {
    if a.Text? && b.Text? {
      TextsBetween(a.text, b.text);
    }
  }

  lemma BumpedBelow(c: RockVersion, v: RockVersion)
    requires Bumpable(v) && AgreesBelow(c, v, |v.parts| - 1) && InRange(c, v)
    ensures Compare(c, NextCompatible(v)) == Less
  {
    var next, last := NextCompatible(v), |v.parts| - 1;
    BumpedBounds(c.At(last), v.At(last));
    PartsOrdered(c.At(last), next.At(last), next.At(last));
    DecidedAt(c, next, 0, last, Max(|c.parts|, |next.parts|));
  }

  lemma PrereleaseBelow(c: RockVersion, v: RockVersion)
    requires Bumpable(v) && PrereleaseOfNext(c, v)
    ensures Compare(c, NextCompatible(v)) == Less
  {
    var next := NextCompatible(v);
    var j :| |v.parts| <= j < |c.parts| && c.At(j).Text? && forall i :: |v.parts| <= i < j ==> c.At(i) == Number(0);
    assert forall i :: |v.parts| <= i ==> next.At(i) == Number(0);
    DecidedAt(c, next, 0, j, Max(|c.parts|, |next.parts|));
  }

  lemma BelowBumped(c: RockVersion, v: RockVersion)
    requires Bumpable(v) && Compare(c, v) != Less && Compare(c, NextCompatible(v)) == Less
    ensures (AgreesBelow(c, v, |v.parts| - 1) && InRange(c, v)) || PrereleaseOfNext(c, v)
  {
    var next, last := NextCompatible(v), |v.parts| - 1;
    var width := Max(|c.parts|, |v.parts|);
    assert forall i :: 0 <= i < last ==> next.At(i) == v.At(i);
    var k := FirstDifference(c, next, 0, width);
    if k < last {
      DecidedAt(c, v, 0, k, width);
      assert false;
    } else if k == last {
      if c.At(last) != v.At(last) {
        DecidedAt(c, v, 0, last, width);
      }
      PartsOrdered(c.At(last), v.At(last), v.At(last));
      BumpedBounds(c.At(last), v.At(last));
    } else {
      assert next.At(k) == Number(0);
      assert PrereleaseOfNext(c, v);
    }
  }

  /**
   * Exactly what `~> v` accepts, whatever the candidate: at or above `v`, and with every component
   * it spells out, where a textual last one may also be continued; or a prerelease of the next.
   * Nothing at all when there is no last component, or none higher.
   */
  lemma CompatibleIff(c: RockVersion, v: RockVersion)
    ensures Constraint(Compatible, v).Matches(c) <==>
      && Compare(c, v) != Less && Bumpable(v)
      && ((AgreesBelow(c, v, |v.parts| - 1) && InRange(c, v)) || PrereleaseOfNext(c, v))
  {
    if !Bumpable(v) {
      NextOfLast(v);
      VersionsOrdered(c, NextCompatible(v), v);
      VersionsOrdered(NextCompatible(v), v, c);
      VersionsOrdered(v, c, NextCompatible(v));
    } else if Constraint(Compatible, v).Matches(c) {
      BelowBumped(c, v);
    } else if AgreesBelow(c, v, |v.parts| - 1) && InRange(c, v) {
      BumpedBelow(c, v);
    } else if PrereleaseOfNext(c, v) {
      PrereleaseBelow(c, v);
    }
  }

  lemma NextOfLast(v: RockVersion)
    requires !Bumpable(v)
    ensures Compare(NextCompatible(v), v) != Greater
  {
    assert NextCompatible(v).parts == v.parts;
    EqualFromIff(NextCompatible(v), v, 0, |v.parts|);
  }

  /** A textual last component: `~> 1.beta` lets `1.beta2` in, which does not agree with it, and not `1.gamma`. */
  lemma TextIsContinued()
    ensures var beta := RockVersion([Number(1), Text("beta")], None);
      var beta2 := RockVersion([Number(1), Text("beta2")], None);
      Constraint(Compatible, beta).Matches(beta2) && !Agrees(beta2, beta)
    ensures var beta := RockVersion([Number(1), Text("beta")], None);
      !Constraint(Compatible, beta).Matches(RockVersion([Number(1), Text("gamma")], None))
  {
    var beta := RockVersion([Number(1), Text("beta")], None);
    var beta2 := RockVersion([Number(1), Text("beta2")], None);
    var gamma := RockVersion([Number(1), Text("gamma")], None);
    assert Continues("beta2", "beta");
    BumpedBounds(beta2.At(1), beta.At(1));
    assert beta2.At(1) != beta.At(1);
    DecidedAt(beta2, beta, 0, 1, 2);
    CompatibleIff(beta2, beta);
    assert "gamma"[0] != "beta"[0];
    assert !Continues("gamma", "beta");
    CompatibleIff(gamma, beta);
  }

  /** What `~>` is described to accept: at least `v`, and below the next increment of what `v` spells out. */
  ghost predicate CompatibleAsDescribed(v: RockVersion) {
    forall c: RockVersion :: AllNumeric(c) ==>
      (Constraint(Compatible, v).Matches(c) <==> Compare(c, v) != Less && Agrees(c, v))
  }

  lemma {:induction false} TextNeverAgrees(c: RockVersion, v: RockVersion, t: nat)
    requires AllNumeric(c) && t < |v.parts| && v.parts[t].Text?
    ensures !Agrees(c, v) && !Constraint(Compatible, v).Matches(c)
  {
    assert c.At(t).Number?;
    var next, width := NextCompatible(v), Max(|c.parts|, |v.parts|);
    if Constraint(Compatible, v).Matches(c) {
      assert CompareFrom(c, next, 0, width) == Less;
      var k := FirstDifference(c, next, 0, width);
      assert next.At(t).Text?;
      assert k <= t;
      if k < |v.parts| - 1 {
        DecidedAt(c, v, 0, k, width);
      }
      assert false;
    }
  }

  /**
   * Against numeric candidates `~> v` accepts exactly those at or above `v` that agree with
   * every component it spells out, unless `v` is numeric and has no last component or one
   * that cannot be bumped.
   */
  lemma CompatibleAsDescribedIff(v: RockVersion)
    ensures CompatibleAsDescribed(v) <==>
      !(AllNumeric(v) && (v.parts == [] || v.parts[|v.parts| - 1] == Number(U64_MAX)))
  {
    if AllNumeric(v) && (v.parts == [] || v.parts[|v.parts| - 1] == Number(U64_MAX)) {
      VersionsOrdered(v, v, v);
      FromOrdered(v, v, v, 0, |v.parts|);
      assert NextCompatible(v).parts == v.parts;
      EqualFromIff(v, NextCompatible(v), 0, |v.parts|);
      assert !Constraint(Compatible, v).Matches(v);
      assert Agrees(v, v);
    } else {
      forall c: RockVersion | AllNumeric(c)
        ensures Constraint(Compatible, v).Matches(c) <==> Compare(c, v) != Less && Agrees(c, v)
      {
        if AllNumeric(v) {
          CompatibleIff(c, v);
        } else {
          var t :| 0 <= t < |v.parts| && !v.parts[t].Number?;
          TextNeverAgrees(c, v, t);
        }
      }
    }
  }

  // ---------------------------------------------------------------- the installed tree

  datatype Listed = Listed(name: string, version: RockVersion)

  /** Per rock, the highest version a listing holds, whatever the order of its lines. */
  method Installed(listing: seq<Listed>) returns (installed: map<string, RockVersion>)
    ensures forall name :: name in installed <==> exists i :: 0 <= i < |listing| && listing[i].name == name
    ensures forall name <- installed :: Listed(name, installed[name]) in listing
    ensures forall i :: 0 <= i < |listing| ==> Compare(listing[i].version, installed[listing[i].name]) != Greater
  {
    hide Compare;
    installed := map[];
    for k := 0 to |listing|
      invariant forall name :: name in installed <==> exists i :: 0 <= i < k && listing[i].name == name
      invariant forall name <- installed :: Listed(name, installed[name]) in listing[..k]
      invariant forall i :: 0 <= i < k ==> Compare(listing[i].version, installed[listing[i].name]) != Greater
    {
      var name, version := listing[k].name, listing[k].version;
      ghost var before := installed;
      if name !in installed || Compare(version, installed[name]) == Greater {
        installed := installed[name := version];
      }
      assert listing[..k + 1] == listing[..k] + [Listed(name, version)];
      forall i | 0 <= i < k + 1 ensures Compare(listing[i].version, installed[listing[i].name]) != Greater {
        if i == k {
          VersionsOrdered(version, version, version);
        } else if listing[i].name == name {
          VersionsOrdered(listing[i].version, before[name], version);
          VersionsOrdered(before[name], version, version);
        }
      }
    }
    assert listing[..|listing|] == listing;
  }
}
