/** Reviewing what an upgrade asks for beyond the version installed. */
module Upgrade {
  import opened Wrappers
  import opened Orders
  import opened Distinctness
  import opened Values
  import opened Manifests
  import opened Capabilities

  datatype Change =
    | CapabilityAdded(name: string)
    | CapabilityRemoved(name: string)
    | CapabilityParams(name: string, before: Value, after: Value, narrowed: bool)
    | CapabilityOptionality(name: string, wasOptional: bool, isOptional: bool)
    | DependencyAdded(name: string)
    | DependencyRemoved(name: string)
    | RockAdded(name: string, requirement: string)
    | RockRemoved(name: string)
    | EntryChanged(oldEntry: string, newEntry: string)
    | SignerChanged(oldSigner: string, newSigner: string)
    | NotNewer(from: Version, to: Version)
  {
    /** Whether this change grants the plugin reach it did not have before. */
    predicate Widens() {
      match this
      case CapabilityAdded(_) | DependencyAdded(_) | RockAdded(_, _) => true
      case EntryChanged(_, _) | SignerChanged(_, _) | NotNewer(_, _) => true
      case CapabilityParams(_, _, _, narrowed) => !narrowed
      case CapabilityRemoved(_) | DependencyRemoved(_) | RockRemoved(_) | CapabilityOptionality(_, _, _) => false
    }
  }

  /** A value unchanged, or a list none of whose elements is new. */
  predicate ValueNarrows(before: Value, after: Value) {
    before == after || (before.List? && after.List? && forall item <- after.items :: item in before.items)
  }

  /** Whether `after` can be proved to ask for no more than `before`. */
  predicate Narrows(before: Value, after: Value) {
    if before.Map? && after.Map? then
      && (forall key <- after.entries :: key in before.entries && ValueNarrows(before.entries[key], after.entries[key]))
      && (forall key <- before.entries :: key in after.entries)
    else before == after
  }

  function DependencyNames(m: Manifest): (names: set<string>)
    ensures forall x :: x in names <==> exists d <- m.dependencies :: d.name == x
  {
    set i | 0 <= i < |m.dependencies| :: m.dependencies[i].name
  }

  // ---------------------------------------------------------------- what a request is read as

  /**
   * What narrowing means for the table declared under one capability: but for the reserved key,
   * no key came or went, and each value is what it was or a list without anything new in it.
   */
  ghost predicate OnlyNarrowed(before: map<string, Value>, after: map<string, Value>) {
    && (forall key :: key != "optional" ==> (key in after <==> key in before))
    && forall key <- after :: key != "optional" && key in before ==>
         || after[key] == before[key]
         || (before[key].List? && after[key].List? && forall item <- after[key].items :: item in before[key].items)
  }

  /** Narrowing the parameters that reach a provider is narrowing the declared table. */
  lemma NarrowsIff(before: map<string, Value>, after: map<string, Value>)
    ensures Narrows(Params(before), Params(after)) <==> OnlyNarrowed(before, after)
  {
    var a, b := before - {OPTIONAL_KEY}, after - {OPTIONAL_KEY};
    assert forall key :: key in a <==> key in before && key != "optional";
    assert forall key :: key in b <==> key in after && key != "optional";
  }

  // ---------------------------------------------------------------- what a review must contain

  /** `c` is a difference between the two manifests. */
  ghost predicate Differs(old': Manifest, new': Manifest, c: Change) {
    match c
    case CapabilityAdded(name) => name !in old'.capabilities && name in new'.capabilities
    case CapabilityRemoved(name) => name in old'.capabilities && name !in new'.capabilities
    case CapabilityParams(name, before, after, narrowed) =>
      && name in old'.capabilities && name in new'.capabilities
      && before == DeclaredParams(old'.capabilities[name]) && after == DeclaredParams(new'.capabilities[name])
      && before != after && narrowed == OnlyNarrowed(old'.capabilities[name], new'.capabilities[name])
    case CapabilityOptionality(name, was, now) =>
      && name in old'.capabilities && name in new'.capabilities
      && was == DeclaredOptional(old'.capabilities[name]) && now == DeclaredOptional(new'.capabilities[name])
      && was != now
    case DependencyAdded(name) => name !in DependencyNames(old') && name in DependencyNames(new')
    case DependencyRemoved(name) => name in DependencyNames(old') && name !in DependencyNames(new')
    case RockAdded(name, requirement) => name !in old'.rocks && name in new'.rocks && requirement == new'.rocks[name]
    case RockRemoved(name) => name in old'.rocks && name !in new'.rocks
    case EntryChanged(before, after) => before == old'.entry && after == new'.entry && before != after
    case SignerChanged(_, _) => false
    case NotNewer(from, to) => HasVersion(old', from) && HasVersion(new', to) && to <= from
  }

  /** The review lists every difference and nothing else. */
  ghost predicate Complete(old': Manifest, new': Manifest, changes: seq<Change>) {
    forall c :: c in changes <==> Differs(old', new', c)
  }

  /** The three tables a review walks name by name. */
  datatype Table = CapabilityTable | DependencyTable | RockTable

  function NamesIn(m: Manifest, t: Table): set<string> {
    match t
    case CapabilityTable => m.capabilities.Keys
    case DependencyTable => DependencyNames(m)
    case RockTable => m.rocks.Keys
  }

  function AllNames(old': Manifest, new': Manifest, t: Table): set<string> {
    NamesIn(old', t) + NamesIn(new', t)
  }

  /** The table and name a change is about, if it is about one. */
  ghost function Subject(c: Change): Option<(Table, string)> {
    match c
    case CapabilityAdded(name) => Some((CapabilityTable, name))
    case CapabilityRemoved(name) => Some((CapabilityTable, name))
    case CapabilityParams(name, _, _, _) => Some((CapabilityTable, name))
    case CapabilityOptionality(name, _, _) => Some((CapabilityTable, name))
    case DependencyAdded(name) => Some((DependencyTable, name))
    case DependencyRemoved(name) => Some((DependencyTable, name))
    case RockAdded(name, _) => Some((RockTable, name))
    case RockRemoved(name) => Some((RockTable, name))
    case EntryChanged(_, _) => None
    case SignerChanged(_, _) => None
    case NotNewer(_, _) => None
  }

  ghost predicate About(c: Change, t: Table, names: set<string>) {
    Subject(c).Some? && Subject(c).value.0 == t && Subject(c).value.1 in names
  }

  /** The differences in one table, confined to the names looked at so far. */
  ghost predicate CompleteAbout(old': Manifest, new': Manifest, t: Table, names: set<string>, changes: seq<Change>) {
    forall c :: c in changes <==> Differs(old', new', c) && About(c, t, names)
  }

  // ---------------------------------------------------------------- the order of a review

  function Rank(c: Change): nat {
    match c
    case NotNewer(_, _) => 0
    case EntryChanged(_, _) => 1
    case CapabilityAdded(_) => 2
    case CapabilityRemoved(_) => 2
    case CapabilityParams(_, _, _, _) => 2
    case CapabilityOptionality(_, _, _) => 2
    case DependencyAdded(_) => 3
    case DependencyRemoved(_) => 3
    case RockAdded(_, _) => 4
    case RockRemoved(_) => 4
    case SignerChanged(_, _) => 5
  }

  /** `a` is listed before `b`: the version, the entry, then table by table, each by name. */
  ghost predicate Before(a: Change, b: Change) {
    || Rank(a) < Rank(b)
    || (Rank(a) == Rank(b) && Subject(a).Some? && Subject(b).Some? &&
        var (x, y) := (Subject(a).value.1, Subject(b).value.1);
        (x != y && NameLeq(x, y)) || (x == y && a.CapabilityParams? && b.CapabilityOptionality?))
  }

  /** Every change stands before the next, so that none is listed twice. */
  ghost predicate Listed(changes: seq<Change>) {
    forall i, j :: 0 <= i < j < |changes| ==> Before(changes[i], changes[j])
  }

  lemma ListedConcat(a: seq<Change>, b: seq<Change>)
    requires Listed(a) && Listed(b) && forall x <- a, y <- b :: Before(x, y)
    ensures Listed(a + b)
  {
    forall i, j | 0 <= i < j < |a + b| ensures Before((a + b)[i], (a + b)[j]) {
      if i < |a| <= j {
        assert a[i] in a && b[j - |a|] in b;
      }
    }
  }

  lemma BeforeIsStrict(a: Change, b: Change, c: Change)
    ensures !Before(a, a)
    ensures Before(a, b) && Before(b, c) ==> Before(a, c)
  {
    NameOrder();
  }

  lemma HeadOnce(changes: seq<Change>, c: Change)
    requires Listed(changes) && changes != []
    ensures c in changes[1..] <==> c in changes && c != changes[0]
  {
    assert changes == [changes[0]] + changes[1..];
    forall k | 0 <= k < |changes| - 1 ensures changes[1..][k] != changes[0] {
      assert Before(changes[0], changes[k + 1]);
      BeforeIsStrict(changes[0], changes[0], changes[0]);
    }
  }

  lemma EmptyAlike(a: seq<Change>, b: seq<Change>)
    requires forall c :: c in a <==> c in b
    ensures a == [] <==> b == []
  {
    if a != [] {
      assert a[0] in a;
    }
    if b != [] {
      assert b[0] in b;
    }
  }

  /** The same differences, listed in order, are the same review. */
  lemma {:induction false} OneReview(a: seq<Change>, b: seq<Change>)
    requires Listed(a) && Listed(b) && forall c :: c in a <==> c in b
    ensures a == b
  {
    EmptyAlike(a, b);
    if a != [] {
      assert a[0] in b && b[0] in a;
      var i :| 0 <= i < |b| && b[i] == a[0];
      var j :| 0 <= j < |a| && a[j] == b[0];
      BeforeIsStrict(a[0], b[0], a[0]);
      assert a[0] == b[0];
      forall c ensures c in a[1..] <==> c in b[1..] {
        HeadOnce(a, c);
        HeadOnce(b, c);
      }
      OneReview(a[1..], b[1..]);
      assert a == [a[0]] + a[1..] && b == [b[0]] + b[1..];
    }
  }

  /** What the review records under one name of one table. */
  function ChangesUnder(old': Manifest, new': Manifest, t: Table, name: string): (changes: seq<Change>)
    requires name in NamesIn(old', t) || name in NamesIn(new', t)
  {
    var before, after := name in NamesIn(old', t), name in NamesIn(new', t);
    match t
    case CapabilityTable =>
      if !before then [CapabilityAdded(name)]
      else if !after then [CapabilityRemoved(name)]
      else
        var a, b := old'.capabilities[name], new'.capabilities[name];
        var (x, y) := (Params(a), Params(b));
        (if x != y then [CapabilityParams(name, x, y, Narrows(x, y))] else [])
        + (if IsOptional(a) != IsOptional(b) then [CapabilityOptionality(name, IsOptional(a), IsOptional(b))] else [])
    case DependencyTable =>
      if !before then [DependencyAdded(name)] else if !after then [DependencyRemoved(name)] else []
    case RockTable =>
      if !before then [RockAdded(name, new'.rocks[name])] else if !after then [RockRemoved(name)] else []
  }

  lemma ChangesUnderComplete(old': Manifest, new': Manifest, t: Table, name: string)
    requires name in NamesIn(old', t) || name in NamesIn(new', t)
    ensures CompleteAbout(old', new', t, {name}, ChangesUnder(old', new', t, name))
    ensures Listed(ChangesUnder(old', new', t, name))
  {
    if t == CapabilityTable && name in old'.capabilities && name in new'.capabilities {
      NarrowsIff(old'.capabilities[name], new'.capabilities[name]);
      hide Narrows, OnlyNarrowed;
    }
  }

  lemma NameIsKnown(old': Manifest, new': Manifest, t: Table, name: string)
    ensures name in AllNames(old', new', t) ==> name in NamesIn(old', t) || name in NamesIn(new', t)
  {
  }

  /** Walks one table of both manifests in name order. */
  method DiffTable(old': Manifest, new': Manifest, t: Table) returns (changes: seq<Change>)
    ensures CompleteAbout(old', new', t, AllNames(old', new', t), changes) && Listed(changes)
  {
    hide Listed, Differs, About, AllNames, ChangesUnder, NamesIn, Distinct, SortedBy;
    var names := SortedKeys(AllNames(old', new', t));
    changes := [];
    NothingAbout(old', new', t);
    SortedKeysOrdered(AllNames(old', new', t));
    assert Members(names[..0]) == {};
    for k := 0 to |names|
      invariant CompleteAbout(old', new', t, Members(names[..k]), changes) && Listed(changes)
    {
      hide CompleteAbout;
      NameIsKnown(old', new', t, names[k]);
      DiffStep(old', new', t, names, k, changes);
      changes := changes + ChangesUnder(old', new', t, names[k]);
    }
    assert Members(names[..|names|]) == AllNames(old', new', t);
  }

  lemma DiffStep(old': Manifest, new': Manifest, t: Table, names: seq<string>, k: nat, changes: seq<Change>)
    requires k < |names| && forall x <- names :: x in AllNames(old', new', t)
    requires CompleteAbout(old', new', t, Members(names[..k]), changes) && Listed(changes)
    requires Distinct(names) && SortedBy(NameLeq, names)
    ensures names[k] in NamesIn(old', t) || names[k] in NamesIn(new', t)
    ensures CompleteAbout(old', new', t, Members(names[..k + 1]), changes + ChangesUnder(old', new', t, names[k]))
    ensures Listed(changes + ChangesUnder(old', new', t, names[k]))
  {
    assert names[k] in names;
    MembersGrow(names, k);
    ChangesUnderComplete(old', new', t, names[k]);
    Joined(old', new', t, Members(names[..k]), {names[k]}, changes, ChangesUnder(old', new', t, names[k]));
    var more := ChangesUnder(old', new', t, names[k]);
    forall x <- changes, y <- more ensures Before(x, y) {
      NamedApart(old', new', t, names, k, changes, x, more, y);
    }
    ListedConcat(changes, more);
  }

  lemma NamedApart(old': Manifest, new': Manifest, t: Table, names: seq<string>, k: nat, changes: seq<Change>,
                   x: Change, more: seq<Change>, y: Change)
    requires k < |names| && Distinct(names) && SortedBy(NameLeq, names) && x in changes && y in more
    requires CompleteAbout(old', new', t, Members(names[..k]), changes)
    requires CompleteAbout(old', new', t, {names[k]}, more)
    ensures Before(x, y)
  {
    assert About(x, t, Members(names[..k])) && About(y, t, {names[k]});
    var i :| 0 <= i < k && names[i] == Subject(x).value.1;
  }

  lemma NothingAbout(old': Manifest, new': Manifest, t: Table)
    ensures CompleteAbout(old', new', t, {}, []) && Listed([])
  {
  }

  lemma Joined(old': Manifest, new': Manifest, t: Table, a: set<string>, b: set<string>, x: seq<Change>, y: seq<Change>)
    requires CompleteAbout(old', new', t, a, x) && CompleteAbout(old', new', t, b, y)
    ensures CompleteAbout(old', new', t, a + b, x + y)
  {
    forall c ensures c in x + y <==> Differs(old', new', c) && About(c, t, a + b) {
      assert c in x + y <==> c in x || c in y;
    }
  }

  /** Diffs two manifests of the same plugin: every difference once, in a fixed order. */
  method Between(installed: Manifest, candidate: Manifest) returns (changes: seq<Change>)
    ensures Complete(installed, candidate, changes) && Listed(changes)
  {
    var from, to := installed.EffectiveVersion(), candidate.EffectiveVersion();
    var head: seq<Change> := [];
    if to <= from {
      head := head + [NotNewer(from, to)];
    }
    if installed.entry != candidate.entry {
      head := head + [EntryChanged(installed.entry, candidate.entry)];
    }
    var capabilities := DiffTable(installed, candidate, CapabilityTable);
    var dependencies := DiffTable(installed, candidate, DependencyTable);
    var rocks := DiffTable(installed, candidate, RockTable);
    changes := head + capabilities + dependencies + rocks;
    AllParts(installed, candidate, head, capabilities, dependencies, rocks);
    PartsListed(installed, candidate, head, capabilities, dependencies, rocks);
  }

  lemma AllParts(old': Manifest, new': Manifest, head: seq<Change>, capabilities: seq<Change>,
                 dependencies: seq<Change>, rocks: seq<Change>)
    requires forall c :: c in head <==> Differs(old', new', c) && Subject(c).None?
    requires CompleteAbout(old', new', CapabilityTable, AllNames(old', new', CapabilityTable), capabilities)
    requires CompleteAbout(old', new', DependencyTable, AllNames(old', new', DependencyTable), dependencies)
    requires CompleteAbout(old', new', RockTable, AllNames(old', new', RockTable), rocks)
    ensures Complete(old', new', head + capabilities + dependencies + rocks)
  {
    var changes := head + capabilities + dependencies + rocks;
    forall c ensures c in changes <==> Differs(old', new', c) {
      assert c in changes <==> c in head || c in capabilities || c in dependencies || c in rocks;
      if Differs(old', new', c) && Subject(c).Some? {
        var (t, name) := Subject(c).value;
        assert About(c, t, AllNames(old', new', t));
      }
    }
  }

  lemma PartsListed(old': Manifest, new': Manifest, head: seq<Change>, capabilities: seq<Change>,
                    dependencies: seq<Change>, rocks: seq<Change>)
    requires Listed(head) && Listed(capabilities) && Listed(dependencies) && Listed(rocks)
    requires forall c <- head :: Differs(old', new', c) && Subject(c).None?
    requires CompleteAbout(old', new', CapabilityTable, AllNames(old', new', CapabilityTable), capabilities)
    requires CompleteAbout(old', new', DependencyTable, AllNames(old', new', DependencyTable), dependencies)
    requires CompleteAbout(old', new', RockTable, AllNames(old', new', RockTable), rocks)
    ensures Listed(head + capabilities + dependencies + rocks)
  {
    hide Listed, Differs;
    assert forall c <- head :: Rank(c) <= 1 || c.SignerChanged? by {}
    assert forall c <- head :: !c.SignerChanged? by { NoSigners(old', new', head); }
    assert forall c <- capabilities :: Rank(c) == 2;
    assert forall c <- dependencies :: Rank(c) == 3;
    assert forall c <- rocks :: Rank(c) == 4;
    ListedConcat(head, capabilities);
    ListedConcat(head + capabilities, dependencies);
    ListedConcat(head + capabilities + dependencies, rocks);
  }

  lemma NoSigners(old': Manifest, new': Manifest, changes: seq<Change>)
    requires forall c <- changes :: Differs(old', new', c)
    ensures forall c <- changes :: !c.SignerChanged?
  {
  }

  predicate ReviewWidens(changes: seq<Change>) {
    exists i :: 0 <= i < |changes| && changes[i].Widens()
  }

  /** Records that the upgrade is signed by a different identity. */
  function WithSigners(changes: seq<Change>, before: string, after: string): (r: seq<Change>)
    ensures ReviewWidens(r) <==> ReviewWidens(changes) || before != after
    ensures changes <= r && (r == changes <==> before == after)
    ensures before != after ==> r[|changes|..] == [SignerChanged(before, after)]
  {
    if before == after then changes
    else
      var r := changes + [SignerChanged(before, after)];
      assert r[|changes|].Widens();
      assert forall i :: 0 <= i < |changes| ==> r[i] == changes[i];
      r
  }

  // ---------------------------------------------------------------- what not widening means

  /** `new'` is a strictly later version that asks for nothing `old'` did not. */
  ghost predicate Tightens(old': Manifest, new': Manifest) {
    && (exists from, to :: HasVersion(old', from) && HasVersion(new', to) && from < to)
    && new'.entry == old'.entry
    && AsksNoMore(old', new')
  }

  ghost predicate AsksNoMore(old': Manifest, new': Manifest) {
    && (forall name <- new'.capabilities ::
          name in old'.capabilities && OnlyNarrowed(old'.capabilities[name], new'.capabilities[name]))
    && (forall d <- new'.dependencies :: exists e <- old'.dependencies :: e.name == d.name)
    && new'.rocks.Keys <= old'.rocks.Keys
  }

  /** A review is quiet exactly when the upgrade asks for nothing the installed version did not. */
  lemma QuietIffTightens(old': Manifest, new': Manifest, changes: seq<Change>)
    requires Complete(old', new', changes)
    ensures !ReviewWidens(changes) <==> Tightens(old', new')
  {
    if !ReviewWidens(changes) {
      forall c | c in changes ensures !c.Widens() {
        var i :| 0 <= i < |changes| && changes[i] == c;
      }
      QuietTightens(old', new');
    } else {
      var i :| 0 <= i < |changes| && changes[i].Widens();
      assert changes[i] in changes;
      assert Differs(old', new', changes[i]);
    }
  }

  lemma QuietTightens(old': Manifest, new': Manifest)
    requires forall c :: Differs(old', new', c) ==> !c.Widens()
    ensures Tightens(old', new')
  {
    var from, to := old'.EffectiveVersion(), new'.EffectiveVersion();
    assert HasVersion(old', from) && HasVersion(new', to) && NotNewer(from, to).Widens();
    assert EntryChanged(old'.entry, new'.entry).Widens();
    forall name <- new'.capabilities
      ensures name in old'.capabilities && OnlyNarrowed(old'.capabilities[name], new'.capabilities[name])
    {
      assert CapabilityAdded(name).Widens();
      QuietNarrows(old'.capabilities[name], new'.capabilities[name], old', new', name);
    }
    forall d <- new'.dependencies ensures exists e <- old'.dependencies :: e.name == d.name {
      assert d.name in DependencyNames(new');
      assert DependencyAdded(d.name).Widens();
    }
    forall name <- new'.rocks ensures name in old'.rocks {
      assert RockAdded(name, new'.rocks[name]).Widens();
    }
  }

  lemma QuietNarrows(a: map<string, Value>, b: map<string, Value>, old': Manifest, new': Manifest, name: string)
    requires forall c :: Differs(old', new', c) ==> !c.Widens()
    requires name in old'.capabilities && name in new'.capabilities
    requires a == old'.capabilities[name] && b == new'.capabilities[name]
    ensures OnlyNarrowed(a, b)
  {
    var x, y := a - {"optional"}, b - {"optional"};
    assert CapabilityParams(name, Map(x), Map(y), false).Widens();
    if x == y {
      assert forall key :: key != "optional" ==> (key in a <==> key in x) && (key in b <==> key in y);
      assert forall key <- x :: a[key] == x[key] && b[key] == y[key];
    }
  }

  lemma NarrowsTransitive(a: Value, b: Value, c: Value)
    requires Narrows(a, b) && Narrows(b, c)
    ensures Narrows(a, c)
  {
    if a.Map? && b.Map? && c.Map? {
      forall key <- c.entries ensures key in a.entries && ValueNarrows(a.entries[key], c.entries[key]) {
        assert key in b.entries;
        assert ValueNarrows(b.entries[key], c.entries[key]) && ValueNarrows(a.entries[key], b.entries[key]);
      }
    }
  }

  lemma TightensTransitive(a: Manifest, b: Manifest, c: Manifest)
    requires Tightens(a, b) && Tightens(b, c)
    ensures Tightens(a, c)
  {
    forall name <- c.capabilities
      ensures name in a.capabilities && OnlyNarrowed(a.capabilities[name], c.capabilities[name])
    {
      NarrowsIff(a.capabilities[name], b.capabilities[name]);
      NarrowsIff(b.capabilities[name], c.capabilities[name]);
      NarrowsIff(a.capabilities[name], c.capabilities[name]);
      NarrowsTransitive(Params(a.capabilities[name]), Params(b.capabilities[name]), Params(c.capabilities[name]));
    }
  }

  /**
   * However many upgrades are applied unattended, none of whose reviews widens, the last
   * version is later than the first and asks for nothing the first did not.
   */
  lemma {:induction false} UnattendedNeverWidens(versions: seq<Manifest>, reviews: seq<seq<Change>>)
    requires |versions| == |reviews| + 1 && reviews != []
    requires forall k :: 0 <= k < |reviews| ==> Complete(versions[k], versions[k + 1], reviews[k])
    requires forall k :: 0 <= k < |reviews| ==> !ReviewWidens(reviews[k])
    ensures Tightens(versions[0], versions[|reviews|])
  {
    var last := |reviews| - 1;
    QuietIffTightens(versions[last], versions[last + 1], reviews[last]);
    if last > 0 {
      UnattendedNeverWidens(versions[..last + 1], reviews[..last]);
      TightensTransitive(versions[0], versions[last], versions[last + 1]);
    }
  }
}
