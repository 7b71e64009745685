/** Installing a plugin: fetch and check in a staging directory, then commit by renaming. */
module Installs {
  import opened Wrappers
  import opened Values
  import opened Manifests
  import opened Signatures
  import opened Locks
  import opened Packages
  import opened Upgrade

  /** A directory tree, as the bytes of each file by relative path. */
  type Tree = map<string, Bytes>

  /** What stands directly under the plugin root, by name. */
  type Entries = map<string, Tree>

  // ---------------------------------------------------------------- names

  predicate NameChar(c: char) {
    'a' <= c <= 'z' || 'A' <= c <= 'Z' || '0' <= c <= '9' || c == '-' || c == '_' || c == '.'
  }

  predicate ValidName(name: string) {
    0 < |name| <= 128 && (forall i :: 0 <= i < |name| ==> NameChar(name[i])) && name != "." && name != ".."
  }

  /** A name is one to 128 ASCII letters, digits, dashes, underscores and dots, and no directory's own name. */
  lemma ValidNameIff(name: string)
    ensures ValidName(name) <==>
      && 1 <= |name| <= 128 && name != "." && name != ".."
      && forall i :: 0 <= i < |name| ==>
          var code := name[i] as int;
          97 <= code <= 122 || 65 <= code <= 90 || 48 <= code <= 57 || code == 45 || code == 95 || code == 46
  {
    assert forall c :: NameChar(c) <==>
        (97 <= c as int <= 122 || 65 <= c as int <= 90 || 48 <= c as int <= 57 || c as int in {45, 95, 46});
    hide NameChar;
  }

  /** The last dot that ends a stem, if the name has one past its first character. */
  function LastDot(name: string): (r: Option<nat>)
    ensures r.Some? ==> 0 < r.value < |name| && name[r.value] == '.'
    ensures forall i :: 0 < i < |name| && name[i] == '.' ==> r.Some? && i <= r.value
  {
    if |name| <= 1 then None
    else if name[|name| - 1] == '.' then Some(|name| - 1)
    else
      var r := LastDot(name[..|name| - 1]);
      assert forall i :: 0 < i < |name| && name[i] == '.' ==> name[..|name| - 1][i] == '.';
      r
  }

  /** Where the old version is moved aside: the name with its extension replaced. */
  function PreviousName(name: string): string {
    match LastDot(name)
    case None => name + ".previous"
    case Some(dot) => name[..dot] + ".previous"
  }

  function StagingName(name: string): string {
    "." + name + ".staging"
  }

  lemma StagingStandsApart(name: string)
    ensures StagingName(name) != name && StagingName(name) != PreviousName(name)
  {
    assert |StagingName(name)| != |name|;
    var p, s := PreviousName(name), StagingName(name);
    assert p[|p| - 1] == 's' && s[|s| - 1] == 'g';
  }

  // ---------------------------------------------------------------- a directory that can fail

  /** The plugin root. Every operation may fail, and every state it passes through is recorded. */
  class Root {
    var entries: Entries
    ghost var history: seq<Entries>

    constructor (entries: Entries)
      ensures this.entries == entries && history == []
    {
      this.entries, history := entries, [];
    }

    /** Renames one entry to a free name, all at once or not at all. */
    method Rename(from: string, to: string, works: bool) returns (ok: bool)
      modifies this
      ensures ok <==> works && from in old(entries) && to !in old(entries)
      ensures entries == Renamed(old(entries), from, to, works)
      ensures history == old(history) + [entries]
    {
      ok := works && from in entries && to !in entries;
      if ok {
        entries := entries[to := entries[from]] - {from};
      }
      history := history + [entries];
    }

    /** Deletes an entry; when interrupted, some of its files may be left. */
    method Remove(name: string, left: Option<Tree>) returns (ok: bool)
      modifies this
      ensures ok <==> name in old(entries) && left.None?
      ensures entries == Removed(old(entries), name, left)
      ensures history == old(history) + [entries]
    {
      ok := name in entries && left.None?;
      if name in entries {
        entries := if left.None? then entries - {name} else entries[name := left.value];
      }
      history := history + [entries];
    }

    /** Writes a tree under a name, replacing what was there. */
    method Write(name: string, tree: Tree)
      modifies this
      ensures entries == old(entries)[name := tree]
      ensures history == old(history) + [entries]
    {
      entries := entries[name := tree];
      history := history + [entries];
    }
  }

  function Renamed(entries: Entries, from: string, to: string, works: bool): Entries {
    if works && from in entries && to !in entries then entries[to := entries[from]] - {from} else entries
  }

  function Removed(entries: Entries, name: string, left: Option<Tree>): Entries {
    if name !in entries then entries
    else
      match left
      case None => entries - {name}
      case Some(tree) => entries[name := tree]
  }

  // ---------------------------------------------------------------- commit

  /** What each filesystem step of a commit comes to; `Some` is what an interrupted delete leaves. */
  datatype Faults = Faults(
    clear: Option<Tree>, aside: bool, place: bool, back: bool, discard: Option<Tree>, tidy: Option<Tree>)

  /** The states a commit of `name` passes through, step by step. */
  function CommitSteps(before: Entries, name: string, f: Faults): (steps: seq<Entries>)
    ensures steps != []
  {
    var previous := PreviousName(name);
    if previous in before then
      var cleared := Removed(before, previous, f.clear);
      if f.clear.Some? then [cleared] else [cleared] + AsideSteps(cleared, name, f)
    else AsideSteps(before, name, f)
  }

  function AsideSteps(before: Entries, name: string, f: Faults): (steps: seq<Entries>)
    ensures steps != []
  {
    if name in before then
      var moved := Renamed(before, name, PreviousName(name), f.aside);
      if !f.aside || PreviousName(name) in before then [moved] else [moved] + PlaceSteps(moved, name, true, f)
    else PlaceSteps(before, name, false, f)
  }

  function PlaceSteps(before: Entries, name: string, had: bool, f: Faults): (steps: seq<Entries>)
    ensures steps != []
  {
    var placed := Renamed(before, StagingName(name), name, f.place);
    if f.place && StagingName(name) in before && name !in before then
      if had then [placed, Removed(placed, PreviousName(name), f.tidy)] else [placed]
    else if had then
      var restored := Renamed(placed, PreviousName(name), name, f.back);
      [placed, restored, Removed(restored, StagingName(name), f.discard)]
    else [placed, Removed(placed, StagingName(name), f.discard)]
  }

  /** A release as the index offers it. */
  datatype Release = Release(
    version: Version, digest: string, source: Option<string>, signer: Option<string>, issuer: Option<string>,
    yanked: bool)

  /** A plugin fetched and checked but not yet installed; no review on a first install. */
  datatype Staged = Staged(
    name: string, release: Release, digest: DirectoryDigest, manifest: Manifest, review: Option<seq<Change>>)
  {
    /** A first install always counts as widening. */
    predicate Widens() {
      review.None? || ReviewWidens(review.value)
    }

    /** The pin to record once committed. */
    function CommittedPin(): LockedPlugin {
      LockedPlugin(PinOf(digest).digest, Some(manifest.EffectiveVersion()), release.signer, release.issuer,
        release.source)
    }
  }

  /** What was staged under `name` before is what is installed after. */
  ghost predicate InPlace(before: Entries, name: string, after: Entries) {
    StagingName(name) in before && name in after && after[name] == before[StagingName(name)]
  }

  /** Puts the staged tree in place, or the old one back. */
  method Place(root: Root, name: string, had: bool, f: Faults) returns (ok: bool)
    requires had ==> PreviousName(name) != name
    modifies root
    ensures root.history == old(root.history) + PlaceSteps(old(root.entries), name, had, f)
    ensures root.history[|root.history| - 1] == root.entries
    ensures ok <==> f.place && StagingName(name) in old(root.entries) && name !in old(root.entries)
    ensures ok ==> InPlace(old(root.entries), name, root.entries)
  {
    ok := root.Rename(StagingName(name), name, f.place);
    if ok {
      if had {
        var _ := root.Remove(PreviousName(name), f.tidy);
      }
    } else {
      // Put the old version back rather than leaving the host with neither.
      if had {
        var _ := root.Rename(PreviousName(name), name, f.back);
      }
      var _ := root.Remove(StagingName(name), f.discard);
    }
  }

  method MoveAside(root: Root, name: string, f: Faults) returns (ok: bool)
    modifies root
    ensures root.history == old(root.history) + AsideSteps(old(root.entries), name, f)
    ensures root.history[|root.history| - 1] == root.entries
    ensures ok <==>
      && f.place && StagingName(name) in old(root.entries)
      && (name in old(root.entries) ==> f.aside && PreviousName(name) !in old(root.entries))
    ensures ok ==> InPlace(old(root.entries), name, root.entries)
  {
    StagingStandsApart(name);
    var had := name in root.entries;
    ok := true;
    if had {
      ok := root.Rename(name, PreviousName(name), f.aside);
    }
    if ok {
      ok := Place(root, name, had, f);
    }
  }

  /** Every step on the way to the new tree works: clearing the aside name, moving aside, putting in place. */
  ghost predicate Commits(before: Entries, name: string, f: Faults) {
    && (PreviousName(name) in before ==> f.clear.None?)
    && (name in before && PreviousName(name) != name ==> f.aside)
    && f.place && StagingName(name) in before
  }

  /**
   * Moves the staged plugin into the root and returns the pin to record, or `None` when a step
   * failed. An old version is moved aside first and deleted only once the new one is in place.
   */
  method Commit(root: Root, staged: Staged, f: Faults) returns (pin: Option<LockedPlugin>)
    modifies root
    ensures root.history == old(root.history) + CommitSteps(old(root.entries), staged.name, f)
    ensures root.entries == Final(old(root.entries), staged.name, f)
    ensures pin.Some? <==> Commits(old(root.entries), staged.name, f)
    ensures pin.Some? ==> InPlace(old(root.entries), staged.name, root.entries) && pin.value == staged.CommittedPin()
  {
    var name := staged.name;
    StagingStandsApart(name);
    var ok := true;
    if PreviousName(name) in root.entries {
      ok := root.Remove(PreviousName(name), f.clear);
    }
    if ok {
      ok := MoveAside(root, name, f);
    }
    pin := if ok then Some(staged.CommittedPin()) else None;
  }

  ghost function Final(before: Entries, name: string, f: Faults): Entries {
    var steps := CommitSteps(before, name, f);
    steps[|steps| - 1]
  }

  /** `other` is one of the entries a commit of `name` has no business with, and is as it was. */
  ghost predicate Untouched(before: Entries, after: Entries, other: string) {
    (other in after <==> other in before) && (other in before ==> after[other] == before[other])
  }

  lemma AsideFrame(before: Entries, name: string, f: Faults, k: nat, other: string)
    requires k < |AsideSteps(before, name, f)|
    requires other !in {name, PreviousName(name), StagingName(name)}
    ensures Untouched(before, AsideSteps(before, name, f)[k], other)
  {
    if name in before {
      var moved := Renamed(before, name, PreviousName(name), f.aside);
      if f.aside && PreviousName(name) !in before && k > 0 {
        assert AsideSteps(before, name, f)[k] == PlaceSteps(moved, name, true, f)[k - 1];
      }
    }
  }

  /** Whatever fails, a commit of one plugin touches no other entry than its own three. */
  lemma CommitFrame(before: Entries, name: string, f: Faults, k: nat, other: string)
    requires k < |CommitSteps(before, name, f)|
    requires other !in {name, PreviousName(name), StagingName(name)}
    ensures Untouched(before, CommitSteps(before, name, f)[k], other)
  {
    if PreviousName(name) in before {
      var cleared := Removed(before, PreviousName(name), f.clear);
      if f.clear.None? && k > 0 {
        AsideFrame(cleared, name, f, k - 1, other);
      }
    } else {
      AsideFrame(before, name, f, k, other);
    }
  }

  // ---------------------------------------------------------------- what a commit keeps

  /** The tree installed under `name`: in place, or moved aside by a commit that could not finish. */
  function Installed(entries: Entries, name: string): Option<Tree> {
    if name in entries then Some(entries[name])
    else if PreviousName(name) in entries then Some(entries[PreviousName(name)])
    else None
  }

  /** `tree` is still there, in place or moved aside, or the new tree is in place. */
  ghost predicate Kept(entries: Entries, name: string, tree: Tree, offered: Option<Tree>) {
    || (name in entries && entries[name] == tree)
    || (PreviousName(name) in entries && entries[PreviousName(name)] == tree)
    || (offered.Some? && name in entries && entries[name] == offered.value)
  }

  function StagedTree(entries: Entries, name: string): Option<Tree> {
    if StagingName(name) in entries then Some(entries[StagingName(name)]) else None
  }

  /** Whatever fails, no state a commit passes through has lost the installed tree. */
  ghost predicate NeverLoses(before: Entries, name: string) {
    forall f: Faults, k: nat :: k < |CommitSteps(before, name, f)| && Installed(before, name).Some? ==>
      Kept(CommitSteps(before, name, f)[k], name, Installed(before, name).value, StagedTree(before, name))
  }

  /** Where the aside copy is not all there is, and the aside name is not the plugin's own. */
  predicate Committable(before: Entries, name: string) {
    if name in before then PreviousName(name) != name else PreviousName(name) !in before
  }

  lemma PlaceKeeps(before: Entries, name: string, f: Faults, tree: Tree, k: nat)
    requires PreviousName(name) != name && PreviousName(name) in before && before[PreviousName(name)] == tree
    requires k < |PlaceSteps(before, name, true, f)|
    ensures Kept(PlaceSteps(before, name, true, f)[k], name, tree, StagedTree(before, name))
  {
    StagingStandsApart(name);
  }

  lemma AsideKeeps(before: Entries, name: string, f: Faults, k: nat)
    requires PreviousName(name) != name && name in before && k < |AsideSteps(before, name, f)|
    ensures Kept(AsideSteps(before, name, f)[k], name, before[name], StagedTree(before, name))
  {
    StagingStandsApart(name);
    var moved := Renamed(before, name, PreviousName(name), f.aside);
    if f.aside && PreviousName(name) !in before && k > 0 {
      PlaceKeeps(moved, name, f, before[name], k - 1);
      assert StagedTree(moved, name) == StagedTree(before, name);
    }
  }

  lemma CommittableKeeps(before: Entries, name: string, f: Faults, k: nat)
    requires Committable(before, name) && Installed(before, name).Some? && k < |CommitSteps(before, name, f)|
    ensures Kept(CommitSteps(before, name, f)[k], name, Installed(before, name).value, StagedTree(before, name))
  {
    StagingStandsApart(name);
    var previous := PreviousName(name);
    if previous in before {
      var cleared := Removed(before, previous, f.clear);
      if f.clear.None? && k > 0 {
        AsideKeeps(cleared, name, f, k - 1);
      }
    } else {
      AsideKeeps(before, name, f, k);
    }
  }

  /**
   * A commit can be trusted with the installed tree, whatever step fails, exactly when that
   * tree is in place under a name that is not its own aside name, or there is none at all.
   */
  lemma NeverLosesIff(before: Entries, name: string)
    ensures NeverLoses(before, name) <==> Committable(before, name)
  {
    if Committable(before, name) {
      forall f: Faults, k: nat | k < |CommitSteps(before, name, f)| && Installed(before, name).Some?
        ensures Kept(CommitSteps(before, name, f)[k], name, Installed(before, name).value, StagedTree(before, name))
      {
        CommittableKeeps(before, name, f, k);
      }
    } else {
      StagingStandsApart(name);
      var f := Faults(None, true, false, true, None, None);
      assert CommitSteps(before, name, f)[0] == Removed(before, PreviousName(name), None);
      assert !Kept(CommitSteps(before, name, f)[0], name, Installed(before, name).value, StagedTree(before, name));
    }
  }

  ghost predicate Lacks(steps: seq<Entries>, name: string)
    requires steps != []
  {
    name !in steps[|steps| - 1]
  }

  lemma PlaceLacks(before: Entries, name: string, had: bool, f: Faults)
    requires name !in before && (had ==> PreviousName(name) in before)
    ensures Lacks(PlaceSteps(before, name, had, f), name) <==>
      !(f.place && StagingName(name) in before) && !(had && f.back)
  {
    StagingStandsApart(name);
  }

  lemma AsideLacks(before: Entries, name: string, f: Faults)
    requires PreviousName(name) !in before
    ensures Lacks(AsideSteps(before, name, f), name) <==>
      !(f.place && StagingName(name) in before) && (name in before ==> f.aside && !f.back)
  {
    StagingStandsApart(name);
    hide PlaceSteps;
    if name in before && f.aside {
      PlaceLacks(Renamed(before, name, PreviousName(name), true), name, true, f);
    } else if name !in before {
      PlaceLacks(before, name, false, f);
    }
  }

  /**
   * When a commit of an installed plugin leaves neither the old tree nor the new one in place:
   * the old one was moved aside, or cleared away as its own aside copy, the new one could not be
   * put in its stead, and the old one could not be put back.
   */
  lemma NeitherInPlaceIff(before: Entries, name: string, f: Faults)
    requires name in before
    ensures name !in Final(before, name, f) <==>
      && !(f.place && StagingName(name) in before)
      && (PreviousName(name) in before ==> f.clear.None?)
      && (PreviousName(name) != name ==> f.aside && !f.back)
  {
    StagingStandsApart(name);
    hide AsideSteps;
    if PreviousName(name) !in before {
      AsideLacks(before, name, f);
    } else if f.clear.None? {
      AsideLacks(Removed(before, PreviousName(name), None), name, f);
    }
  }

  /**
   * Two commits in a row can lose a plugin: the first fails after moving the old tree aside
   * and cannot move it back, the second clears the aside copy and fails to place the new tree.
   */
  lemma SecondCommitCanLose(tree: Tree, newTree: Tree) returns (f: Faults, g: Faults)
    ensures var before: Entries := map["p" := tree, ".p.staging" := newTree];
      var first := CommitSteps(before, "p", f);
      var second := CommitSteps(first[|first| - 1][".p.staging" := newTree], "p", g);
      |first| > 0 && |second| > 0 && "p" !in first[|first| - 1] && Installed(first[|first| - 1], "p") == Some(tree) &&
      Installed(second[|second| - 1], "p") == None
  {
    f, g := Faults(None, true, false, false, None, None), Faults(None, true, false, true, None, None);
    assert LastDot("p") == None && PreviousName("p") == "p.previous" && StagingName("p") == ".p.staging";
  }

  // ---------------------------------------------------------------- what a commit does to others

  /** The entry that holds the tree installed under `name`. */
  function Stands(entries: Entries, name: string): string {
    if name in entries then name else PreviousName(name)
  }

  /** Whatever fails, a commit of `name` leaves this entry as it is. */
  ghost predicate Spares(before: Entries, name: string, entry: string) {
    forall f: Faults, k: nat :: k < |CommitSteps(before, name, f)| ==>
      Untouched(before, CommitSteps(before, name, f)[k], entry)
  }

  /** A commit is safe for another installed plugin exactly when its tree stands in none of the commit's own entries. */
  lemma SparesIff(before: Entries, name: string, other: string)
    requires Installed(before, other).Some?
    ensures Spares(before, name, Stands(before, other)) <==>
      Stands(before, other) !in {name, Stem(name) + ".previous", "." + name + ".staging"}
  {
    var entry := Stands(before, other);
    if entry !in {name, PreviousName(name), StagingName(name)} {
      forall f: Faults, k: nat | k < |CommitSteps(before, name, f)|
        ensures Untouched(before, CommitSteps(before, name, f)[k], entry)
      {
        CommitFrame(before, name, f, k, entry);
      }
    } else {
      var f := Faults(None, true, true, true, None, None);
      var k := TakesAway(before, name, f, entry);
      assert !Untouched(before, CommitSteps(before, name, f)[k], entry);
    }
  }

  /** When every step works, each of a commit's own entries is taken away at some point. */
  lemma TakesAway(before: Entries, name: string, f: Faults, entry: string) returns (k: nat)
    requires f == Faults(None, true, true, true, None, None)
    requires entry in before && entry in {name, PreviousName(name), StagingName(name)}
    ensures k < |CommitSteps(before, name, f)| && entry !in CommitSteps(before, name, f)[k]
  {
    StagingStandsApart(name);
    var previous, steps := PreviousName(name), CommitSteps(before, name, f);
    var cleared := if previous in before then Removed(before, previous, None) else before;
    var first := if previous in before then 1 else 0;
    assert forall i :: first <= i < |steps| ==> steps[i] == AsideSteps(cleared, name, f)[i - first];
    if entry == previous {
      k := 0;
    } else if entry == name {
      k := first;
    } else {
      k := first + if name in cleared then 1 else 0;
    }
  }

  /** What is left of a name when it is moved aside: all but its extension. */
  function Stem(name: string): string {
    match LastDot(name)
    case None => name
    case Some(dot) => name[..dot]
  }

  /**
   * Two plugins are moved aside to the same place exactly when their names differ at most after
   * the last dot; and then a commit of the one deletes the other's tree when that is all there is
   * of it, left aside by a commit that could not finish.
   */
  lemma SharedAsideIff(before: Entries, name: string, other: string, f: Faults)
    ensures PreviousName(name) == Stem(name) + ".previous"
    ensures PreviousName(name) == PreviousName(other) <==> Stem(name) == Stem(other)
    ensures Stem(name) == Stem(other) && other !in before && PreviousName(other) in before && f.clear.None? ==>
      Installed(CommitSteps(before, name, f)[0], other) == None
  {
    var a, b := PreviousName(name), PreviousName(other);
    assert a == Stem(name) + ".previous" && b == Stem(other) + ".previous";
    assert Stem(name) == a[..|a| - 9] && Stem(other) == b[..|b| - 9];
  }

  /** Plugins whose names differ only after the last dot are moved aside to the same place. */
  lemma AsideNamesCollide()
    ensures ValidName("codec.json") && ValidName("codec.toml")
    ensures PreviousName("codec.json") == PreviousName("codec.toml") == "codec.previous"
  {
    var a, b := "codec.json", "codec.toml";
    assert ValidName(a) && ValidName(b);
    hide ValidName, LastDot;
    StemOf("codec", "json");
    StemOf("codec", "toml");
    assert "codec" + "." + "json" == a && "codec" + "." + "toml" == b;
    SharedAsideIff(map[], a, b, Faults(None, true, true, true, None, None));
  }

  lemma {:induction false} StemOf(stem: string, extension: string)
    requires stem != "" && '.' !in extension
    ensures Stem(stem + "." + extension) == stem
  {
    var name := stem + "." + extension;
    if extension != "" {
      var last := |extension| - 1;
      assert name[..|name| - 1] == stem + "." + extension[..last];
      assert extension[last] in extension && name[|name| - 1] == extension[last];
      StemOf(stem, extension[..last]);
    }
  }

  // ---------------------------------------------------------------- staging

  datatype InstallError = NoMatch | BadName | PinMismatch | NoSource | NotFetched | Malformed | Mismatch | Io

  const MANIFEST_FILE := "plugin.toml"

  /**
   * What staging meets outside: whether each filesystem step works (`Some` is what an
   * interrupted delete leaves), the archive fetched, and how a directory's manifest reads.
   */
  datatype Surroundings = Surroundings(
    fetched: bool, rootWorks: bool, clear: Option<Tree>, createWorks: bool, permissionsWork: bool, listWorks: bool,
    archive: seq<ArchiveEntry>, limits: Limits, readable: bool, manifestOf: Tree -> Option<Manifest>,
    cleanup: Option<Tree>)

  function FileEntries(tree: Tree): (r: seq<FileEntry>)
    ensures |r| == |tree.Keys|
    ensures forall e <- r :: e.relative in tree && e.contents == Some(tree[e.relative])
    ensures forall p <- tree :: FileEntry(p, Some(tree[p])) in r
  {
    var keys := SortedKeys(tree.Keys);
    assert forall i :: 0 <= i < |keys| ==> keys[i] in tree;
    var r := seq(|keys|, i requires 0 <= i < |keys| => FileEntry(keys[i], Some(tree[keys[i]])));
    assert forall p <- tree :: FileEntry(p, Some(tree[p])) in r by {
      forall p <- tree ensures FileEntry(p, Some(tree[p])) in r {
        var i :| 0 <= i < |keys| && keys[i] == p;
        assert r[i] == FileEntry(p, Some(tree[p]));
      }
    }
    r
  }

  /** The digest is that of the tree's covered files. */
  ghost predicate DigestOf(tree: Tree, digest: DirectoryDigest, sha: HashFunction) {
    && digest.files == HashesOf(FileEntries(tree), sha)
    && digest.preimage == Preimage(digest.files) && digest.root == sha(digest.preimage)
  }

  /** Every entry but the staging one is as it was. */
  ghost predicate OnlyStaging(before: Entries, after: Entries, name: string) {
    forall other :: other != StagingName(name) ==> Untouched(before, after, other)
  }

  lemma OnlyStagingTransitive(a: Entries, b: Entries, c: Entries, name: string)
    requires OnlyStaging(a, b, name) && OnlyStaging(b, c, name)
    ensures OnlyStaging(a, c, name)
  {
    forall other | other != StagingName(name) ensures Untouched(a, c, other) {
      assert Untouched(a, b, other) && Untouched(b, c, other);
    }
  }

  /** A fresh, empty staging directory beside the plugins. */
  method StagingDir(root: Root, name: string, s: Surroundings) returns (ok: bool)
    modifies root
    ensures OnlyStaging(old(root.entries), root.entries, name)
    ensures ok <==>
      && s.rootWorks && s.createWorks && s.permissionsWork
      && (StagingName(name) in old(root.entries) ==> s.clear.None?)
    ensures ok ==> StagingName(name) in root.entries && root.entries[StagingName(name)] == map[]
  {
    ok := s.rootWorks;
    if ok && StagingName(name) in root.entries {
      ok := root.Remove(StagingName(name), s.clear);
    }
    if ok {
      ok := s.createWorks;
      if ok {
        root.Write(StagingName(name), map[]);
        ok := s.permissionsWork;
      }
    }
  }

  /** Unpacks into the staging directory and checks the result against the release. */
  method CheckPackage(root: Root, name: string, release: Release, s: Surroundings, sha: HashFunction)
    returns (r: Result<Staged, InstallError>)
    modifies root
    ensures OnlyStaging(old(root.entries), root.entries, name)
    ensures r.Ok? <==> Acceptable(name, release, s, sha)
    ensures r == Err(Malformed) <==> s.listWorks && !AllAllowed(s.archive, s.limits, |s.archive|)
    ensures r == Err(Io) <==> !s.listWorks || (AllAllowed(s.archive, s.limits, |s.archive|) && !s.readable)
    ensures r.Err? ==> r.error in {Malformed, Io, Mismatch}
    ensures r.Ok? ==> Checked(old(root.entries), root.entries, name, release, r.value, s, sha)
    ensures StagingName(name) in old(root.entries) ==> StagingName(name) in root.entries
  {
    if !s.listWorks {
      return Err(Io);
    }
    var problem, tree := Unpack(s.archive, s.limits);
    root.Write(StagingName(name), tree);
    if problem.Some? {
      return Err(Malformed);
    }
    var computed := Compute(FileEntries(tree), sha);
    if !s.readable || computed.None? {
      return Err(Io);
    }
    var digest := computed.value;
    PinSpellsIff(Pinning(release.digest), digest.root);
    if !SameHex(StripPrefix(release.digest), Hex(digest.root)) {
      return Err(Mismatch);
    }
    var read := s.manifestOf(tree);
    if read.None? || read.value.name != name || read.value.EffectiveVersion() != release.version {
      return Err(Mismatch);
    }
    StagingStandsApart(name);
    var review: Option<seq<Change>> := None;
    if name in root.entries && MANIFEST_FILE in root.entries[name] {
      var installed := s.manifestOf(root.entries[name]);
      if installed.Some? {
        var changes := Between(installed.value, read.value);
        review := Some(changes);
      }
    }
    r := Ok(Staged(name, release, digest, read.value, review));
  }

  /** A pin of a digest as it is spelled. */
  ghost function Pinning(digest: string): LockedPlugin {
    LockedPlugin(digest, None, None, None, None)
  }

  /** The tree an archive delivers. */
  ghost function Shipped(s: Surroundings): Tree {
    TreeOf(FilesUpTo(s.archive, |s.archive|))
  }

  /** The archive unpacks, to the promised digest, the promised name and the promised version. */
  ghost predicate Acceptable(name: string, release: Release, s: Surroundings, sha: HashFunction) {
    && s.listWorks && s.readable && AllAllowed(s.archive, s.limits, |s.archive|)
    && PinSpells(release.digest, sha(Preimage(HashesOf(FileEntries(Shipped(s)), sha))))
    && s.manifestOf(Shipped(s)).Some? && s.manifestOf(Shipped(s)).value.name == name
    && HasVersion(s.manifestOf(Shipped(s)).value, release.version)
  }

  /** Everything there is to object to before the archive is looked at. */
  predicate Fetchable(before: Entries, name: string, release: Release, lock: Lockfile, s: Surroundings) {
    && ValidName(name) && (name in lock ==> SameHex(lock[name].PinnedHex(), StripPrefix(release.digest)))
    && release.source.Some? && s.fetched && s.rootWorks && s.createWorks && s.permissionsWork
    && (StagingName(name) in before ==> s.clear.None?)
  }

  /** What a staged plugin has been established to be. */
  ghost predicate Checked(before: Entries, after: Entries, name: string, release: Release, staged: Staged,
                          s: Surroundings, sha: HashFunction)
  {
    && staged.name == name && staged.release == release
    && AllAllowed(s.archive, s.limits, |s.archive|)
    && StagingName(name) in after && after[StagingName(name)] == Shipped(s)
    && DigestOf(after[StagingName(name)], staged.digest, sha)
    && PinSpells(release.digest, staged.digest.root)
    && s.manifestOf(after[StagingName(name)]) == Some(staged.manifest)
    && staged.manifest.name == name && HasVersion(staged.manifest, release.version)
    && Reviewed(before, name, staged, s)
  }

  /** The review compares with whatever readable manifest is installed. */
  ghost predicate Reviewed(before: Entries, name: string, staged: Staged, s: Surroundings) {
    if name in before && "plugin.toml" in before[name] && s.manifestOf(before[name]).Some? then
      staged.review.Some? && Complete(s.manifestOf(before[name]).value, staged.manifest, staged.review.value)
    else staged.review.None?
  }

  /** After a failure the staging entry is gone, or what an interrupted delete left of it. */
  ghost predicate CleanedUp(after: Entries, name: string, left: Option<Tree>) {
    match left
    case None => "." + name + ".staging" !in after
    case Some(tree) => "." + name + ".staging" in after && after["." + name + ".staging"] == tree
  }

  /** The first thing there is to object to. */
  ghost function Complaint(before: Entries, name: string, release: Release, lock: Lockfile, s: Surroundings,
                           sha: HashFunction): InstallError
  {
    if !ValidName(name) then BadName
    else if name in lock && !SameHex(lock[name].PinnedHex(), StripPrefix(release.digest)) then PinMismatch
    else if release.source.None? then NoSource
    else if !s.fetched then NotFetched
    else if !Fetchable(before, name, release, lock, s) || !s.listWorks then Io
    else if !AllAllowed(s.archive, s.limits, |s.archive|) then Malformed
    else if !s.readable then Io
    else Mismatch
  }

  /**
   * Fetches and checks one release without touching anything but its staging entry. A pinned
   * plugin is only ever staged at its pinned digest, whatever the index says.
   */
  method StageRelease(root: Root, name: string, release: Release, lock: Lockfile, s: Surroundings, sha: HashFunction)
    returns (r: Result<Staged, InstallError>)
    modifies root
    ensures OnlyStaging(old(root.entries), root.entries, name)
    ensures !ValidName(name) || release.source.None? || !s.fetched ==> root.entries == old(root.entries)
    ensures r.Ok? <==> Stageable(old(root.entries), name, release, lock, s, sha)
    ensures r.Err? ==> r.error != NoMatch
    ensures r.Ok? ==> Checked(old(root.entries), root.entries, name, release, r.value, s, sha)
    ensures r.Ok? && name in lock ==> PinSpells(lock[name].digest, r.value.digest.root)
    ensures r.Err? ==> r.error == Complaint(old(root.entries), name, release, lock, s, sha)
    ensures r.Err? && Fetchable(old(root.entries), name, release, lock, s) ==> CleanedUp(root.entries, name, s.cleanup)
  {
    hide Acceptable, PinSpells, SameHex, AllAllowed, DigestOf, Shipped, ValidName, StripPrefix, LockedPlugin.PinnedHex;
    if !ValidName(name) {
      return Err(BadName);
    }
    if name in lock && !SameHex(lock[name].PinnedHex(), StripPrefix(release.digest)) {
      return Err(PinMismatch);
    }
    if release.source.None? {
      return Err(NoSource);
    }
    if !s.fetched {
      return Err(NotFetched);
    }
    StagingStandsApart(name);
    ghost var before := root.entries;
    var ok := StagingDir(root, name, s);
    if !ok {
      return Err(Io);
    }
    ghost var staging := root.entries;
    assert Untouched(before, staging, name);
    hide OnlyStaging;
    r := CheckPackage(root, name, release, s, sha);
    OnlyStagingTransitive(before, staging, root.entries, name);
    if r.Err? {
      ghost var checked := root.entries;
      var _ := root.Remove(StagingName(name), s.cleanup);
      RemovingStaging(checked, name, s.cleanup);
      OnlyStagingTransitive(before, checked, root.entries, name);
    } else if name in lock {
      PinFollows(lock[name], release.digest, r.value.digest.root);
    }
  }

  lemma PinFollows(pin: LockedPlugin, digest: string, h: Hash)
    requires SameHex(pin.PinnedHex(), StripPrefix(digest)) && PinSpells(digest, h)
    ensures PinSpells(pin.digest, h)
  {
    PinSpellsIff(pin, h);
    PinSpellsIff(Pinning(digest), h);
  }

  lemma RemovingStaging(before: Entries, name: string, left: Option<Tree>)
    requires StagingName(name) in before
    ensures OnlyStaging(before, Removed(before, StagingName(name), left), name)
    ensures CleanedUp(Removed(before, StagingName(name), left), name, left)
  {
  }

  /** Throws a staged plugin away. */
  method Discard(root: Root, staged: Staged, left: Option<Tree>) returns (ok: bool)
    modifies root
    ensures OnlyStaging(old(root.entries), root.entries, staged.name)
    ensures ok <==> "." + staged.name + ".staging" in old(root.entries) && left.None?
    ensures ok ==> "." + staged.name + ".staging" !in root.entries
  {
    ok := root.Remove(StagingName(staged.name), left);
  }

  // ---------------------------------------------------------------- which release

  ghost predicate Eligible(release: Release, accepts: Version -> bool) {
    !release.yanked && accepts(release.version)
  }

  /** The release is eligible, and none that is eligible is newer. */
  ghost predicate Newest(releases: seq<Release>, accepts: Version -> bool, release: Release) {
    exists k :: 0 <= k < |releases| && releases[k] == release && NewestAt(releases, accepts, k)
  }

  /** Of several equally new ones the last listed. */
  ghost predicate NewestAt(releases: seq<Release>, accepts: Version -> bool, k: nat)
    requires k < |releases|
  {
    && Eligible(releases[k], accepts)
    && forall j :: 0 <= j < |releases| && Eligible(releases[j], accepts) ==>
        releases[j].version < releases[k].version || (releases[j].version == releases[k].version && j <= k)
  }

  /** The newest release satisfying the requirement, skipping yanked ones. */
  method BestMatch(releases: seq<Release>, accepts: Version -> bool) returns (best: Option<Release>)
    ensures best.None? <==> forall release <- releases :: !Eligible(release, accepts)
    ensures best.Some? ==> Newest(releases, accepts, best.value)
  {
    best := None;
    ghost var at := 0;
    for k := 0 to |releases|
      invariant best.None? <==> forall i :: 0 <= i < k ==> !Eligible(releases[i], accepts)
      invariant best.Some? ==> 0 <= at < k && releases[at] == best.value && NewestAt(releases[..k], accepts, at)
    {
      if !releases[k].yanked && accepts(releases[k].version) &&
        (best.None? || best.value.version <= releases[k].version) {
        best, at := Some(releases[k]), k;
      }
    }
    assert releases[..|releases|] == releases;
  }

  /** The first listed of this version. */
  ghost predicate FirstOf(releases: seq<Release>, version: Version, release: Release) {
    exists k :: 0 <= k < |releases| && releases[k] == release && release.version == version &&
      forall j :: 0 <= j < k ==> releases[j].version != version
  }

  /** One exact version, yanked or not. */
  method Exact(releases: seq<Release>, version: Version) returns (r: Option<Release>)
    ensures r.None? <==> forall release <- releases :: release.version != version
    ensures r.Some? ==> FirstOf(releases, version, r.value)
  {
    r := None;
    for k := 0 to |releases|
      invariant forall i :: 0 <= i < k ==> releases[i].version != version
    {
      if releases[k].version == version {
        return Some(releases[k]);
      }
    }
  }

  /** The release to stage: the pinned version, if the lockfile names one, else the newest eligible. */
  ghost predicate Selected(releases: seq<Release>, accepts: Version -> bool, name: string, lock: Lockfile,
                           release: Release)
  {
    if name in lock && lock[name].version.Some? then FirstOf(releases, lock[name].version.value, release)
    else Newest(releases, accepts, release)
  }

  ghost predicate Stageable(before: Entries, name: string, release: Release, lock: Lockfile, s: Surroundings,
                            sha: HashFunction)
  {
    Fetchable(before, name, release, lock, s) && Acceptable(name, release, s, sha)
  }

  /** A pinned version when the lockfile names one, else the newest that satisfies the requirement. */
  method Stage(root: Root, name: string, releases: seq<Release>, accepts: Version -> bool, lock: Lockfile,
               s: Surroundings, sha: HashFunction)
    returns (r: Result<Staged, InstallError>)
    modifies root
    ensures OnlyStaging(old(root.entries), root.entries, name)
    ensures r.Ok? ==> Checked(old(root.entries), root.entries, name, r.value.release, r.value, s, sha)
    ensures r.Ok? ==> Selected(releases, accepts, name, lock, r.value.release)
    ensures r.Err? && r.error != NoMatch ==> exists release ::
      Selected(releases, accepts, name, lock, release) && !Stageable(old(root.entries), name, release, lock, s, sha)
    ensures r == Err(NoMatch) <==> forall release <- releases :: !Selected(releases, accepts, name, lock, release)
    ensures r.Ok? && name in lock ==> PinSpells(lock[name].digest, r.value.digest.root)
    ensures r.Ok? && name in lock && lock[name].version.Some? ==>
      HasVersion(r.value.manifest, lock[name].version.value)
  {
    var release;
    if name in lock && lock[name].version.Some? {
      release := Exact(releases, lock[name].version.value);
    } else {
      release := BestMatch(releases, accepts);
    }
    if release.None? {
      return Err(NoMatch);
    }
    assert release.value in releases && Selected(releases, accepts, name, lock, release.value);
    r := StageRelease(root, name, release.value, lock, s, sha);
  }

  /** Proposes an upgrade: the newest release that satisfies the requirement, whatever version is pinned. */
  method StageUpgrade(root: Root, name: string, releases: seq<Release>, accepts: Version -> bool, lock: Lockfile,
                      s: Surroundings, sha: HashFunction)
    returns (r: Result<Staged, InstallError>)
    modifies root
    ensures OnlyStaging(old(root.entries), root.entries, name)
    ensures r.Ok? ==> Checked(old(root.entries), root.entries, name, r.value.release, r.value, s, sha)
    ensures r.Ok? ==> Newest(releases, accepts, r.value.release)
    ensures r.Err? && r.error != NoMatch ==> exists release ::
      Newest(releases, accepts, release) && !Stageable(old(root.entries), name, release, lock, s, sha)
    ensures r == Err(NoMatch) <==> forall release <- releases :: !Eligible(release, accepts)
    ensures r.Ok? && name in lock ==> PinSpells(lock[name].digest, r.value.digest.root)
  {
    var release := BestMatch(releases, accepts);
    if release.None? {
      return Err(NoMatch);
    }
    r := StageRelease(root, name, release.value, lock, s, sha);
  }

  /** The pin a commit returns accepts the build that was staged exactly when its signer is the one claimed. */
  lemma CommittedPinAccepts(staged: Staged, lock: Lockfile, signer: Signer)
    requires staged.manifest.name == staged.name
    ensures Check(lock[staged.name := staged.CommittedPin()], staged.manifest, staged.digest, signer).None? <==>
      && (staged.release.signer.Some? ==> signer.Verified? && signer.identity == staged.release.signer.value)
      && (staged.release.issuer.Some? ==> signer.Verified? && signer.issuer == staged.release.issuer)
  {
    var pin := staged.CommittedPin();
    assert pin.digest == PinOf(staged.digest).digest;
    PinAllowsIff(lock[staged.name := pin], staged.manifest, staged.digest, staged.digest, signer);
  }

  /** Whatever the manifest: the pin a commit returns accepts exactly that build, at that version, signed as claimed. */
  lemma CommittedPinAcceptsIff(staged: Staged, lock: Lockfile, m: Manifest, digest: DirectoryDigest, signer: Signer)
    requires m.name == staged.name
    ensures Check(lock[staged.name := staged.CommittedPin()], m, digest, signer).None? <==>
      && digest.root == staged.digest.root
      && (exists v :: HasVersion(staged.manifest, v) && HasVersion(m, v))
      && (staged.release.signer.Some? ==> signer.Verified? && signer.identity == staged.release.signer.value)
      && (staged.release.issuer.Some? ==> signer.Verified? && signer.issuer == staged.release.issuer)
    ensures staged.CommittedPin().source == staged.release.source
  {
    var pin := staged.CommittedPin();
    assert pin.digest == PinOf(staged.digest).digest && HasVersion(staged.manifest, pin.version.value);
    PinAllowsIff(lock[staged.name := pin], m, staged.digest, digest, signer);
  }

  /**
   * A staged plugin is safe to commit unattended exactly when a manifest can be read of what is
   * installed, and the staged one asks for nothing more.
   */
  lemma UnwideningStageTightens(before: Entries, name: string, staged: Staged, s: Surroundings)
    requires Reviewed(before, name, staged, s)
    ensures !staged.Widens() <==>
      && name in before && "plugin.toml" in before[name] && s.manifestOf(before[name]).Some?
      && Tightens(s.manifestOf(before[name]).value, staged.manifest)
  {
    if staged.review.Some? {
      QuietIffTightens(s.manifestOf(before[name]).value, staged.manifest, staged.review.value);
    }
  }
}
