/** Plugin packages: unpacking an archive that may be hostile, and what repacking keeps. */
module Packages {
  import opened Wrappers
  import opened Texts
  import opened Paths
  import opened Signatures
  import opened Values

  // ---------------------------------------------------------------- paths

  /** A file or directory name proper. */
  predicate ProperName(part: string) {
    part != "" && part != "." && part != ".." && '/' !in part
  }

  /** One or more names, joined by slashes. */
  ghost predicate Clean(path: string) {
    exists parts: seq<string> :: parts != [] && (forall part <- parts :: ProperName(part)) && path == Join(parts, '/')
  }

  function NormalParts(components: seq<Component>): seq<string> {
    if components == [] then []
    else if components[0].Normal? then [components[0].part] + NormalParts(components[1..])
    else NormalParts(components[1..])
  }

  predicate Escapes(component: Component) {
    component.Root? || component.Parent?
  }

  /** Where an archive path lands below the destination, if it stays there at all. */
  function Relative(path: string): Option<string> {
    var components := Components(path);
    if exists i :: 0 <= i < |components| && Escapes(components[i]) then None
    else if NormalParts(components) == [] then None
    else Some(Join(NormalParts(components), '/'))
  }

  lemma NormalPartsNext(components: seq<Component>, k: nat)
    requires k < |components|
    ensures NormalParts(components[..k + 1]) ==
      NormalParts(components[..k]) + if components[k].Normal? then [components[k].part] else []
    decreases k
  {
    if k > 0 {
      assert components[..k + 1][1..] == components[1..][..k];
      assert components[..k][1..] == components[1..][..k - 1];
      NormalPartsNext(components[1..], k - 1);
    } else {
      assert components[..1][1..] == [] && components[..0] == [];
    }
  }

  /** Reduces an archive path to a safe relative path, or refuses it. */
  method SafeRelative(path: string) returns (r: Option<string>)
    ensures r == Relative(path)
  {
    var components, parts: seq<string> := Components(path), [];
    for k := 0 to |components|
      invariant parts == NormalParts(components[..k])
      invariant forall i :: 0 <= i < k ==> !Escapes(components[i])
    {
      NormalPartsNext(components, k);
      match components[k]
      case Normal(part) => parts := parts + [part];
      case Current =>
      case _ =>
        assert Escapes(components[k]);
        return None;
    }
    assert components[..|components|] == components;
    r := if parts == [] then None else Some(Join(parts, '/'));
  }

  lemma {:induction false} NormalPartsPlain(parts: seq<string>)
    requires forall part <- parts :: '/' !in part
    ensures forall part <- NormalParts(ComponentsOf(parts)) :: ProperName(part)
  {
    if parts != [] {
      assert parts == [parts[0]] + parts[1..];
      NormalPartsPlain(parts[1..]);
    }
  }

  /** Whatever the archive says, a path let through has nothing but names in it. */
  lemma RelativeIsClean(path: string)
    ensures Relative(path).Some? ==> Clean(Relative(path).value)
  {
    if Relative(path).Some? {
      NormalPartsPlain(Split(path, '/'));
      RelativeParts(path);
    }
  }

  /** A path that stays inside has only its names to show, whatever it begins with. */
  lemma RelativeParts(path: string)
    requires Relative(path).Some?
    ensures Leading(path) == [] || Leading(path) == [Current]
    ensures NormalParts(Components(path)) == NormalParts(ComponentsOf(Split(path, '/')))
    ensures SpelledAll(ComponentsOf(Split(path, '/'))) == NormalParts(ComponentsOf(Split(path, '/')))
  {
    var components, inner := Components(path), ComponentsOf(Split(path, '/'));
    forall i | 0 <= i < |inner| ensures inner[i] != Root && inner[i] != Parent {
      assert components[|Leading(path)| + i] == inner[i];
    }
    assert Leading(path) == [Root] ==> Escapes(components[0]);
    if Leading(path) == [Current] {
      assert components[1..] == inner;
    }
    assert Leading(path) == [] ==> components == inner;
    NamesSpelled(inner);
    NoneCurrent(Split(path, '/'));
  }

  lemma {:induction false} NoneCurrent(parts: seq<string>)
    ensures forall i :: 0 <= i < |ComponentsOf(parts)| ==> ComponentsOf(parts)[i] != Current
  {
    if parts != [] {
      NoneCurrent(parts[1..]);
    }
  }

  lemma {:induction false} NamesSpelled(components: seq<Component>)
    ensures (forall i :: 0 <= i < |components| ==> components[i].Normal?) ==>
      SpelledAll(components) == NormalParts(components)
  {
    if components != [] {
      NamesSpelled(components[1..]);
      assert forall i :: 0 <= i < |components[1..]| ==> components[1..][i] == components[i + 1];
      assert SpelledAll(components) == [Spelled(components[0])] + SpelledAll(components[1..]);
    }
  }

  /** The key under which a manifest's entry is looked up is where unpacking puts it, but for a leading dot. */
  lemma EntryKey(path: string)
    requires Relative(path).Some?
    ensures SlashPath(path) == if Split(path, '/')[0] == "." then "./" + Relative(path).value else Relative(path).value
  {
    RelativeParts(path);
    var names := NormalParts(Components(path));
    if Split(path, '/')[0] == "." {
      LeadingDot(path);
      assert SpelledAll(Components(path)) == ["."] + names;
      assert (["."] + names)[1..] == names;
    } else {
      assert SpelledAll(Components(path)) == names;
    }
  }

  lemma LeadingDot(path: string)
    requires Split(path, '/')[0] == "."
    ensures Leading(path) == [Current]
  {
  }

  lemma {:induction false} PlainComponents(parts: seq<string>)
    requires forall part <- parts :: ProperName(part)
    ensures NormalParts(ComponentsOf(parts)) == parts
    ensures forall i :: 0 <= i < |ComponentsOf(parts)| ==> !Escapes(ComponentsOf(parts)[i])
  {
    if parts != [] {
      assert parts == [parts[0]] + parts[1..] && parts[0] in parts && ProperName(parts[0]);
      PlainComponents(parts[1..]);
      assert ComponentsOf(parts)[1..] == ComponentsOf(parts[1..]);
    }
  }

  /** A clean path is let through as it is. */
  lemma CleanIsRelative(path: string)
    requires Clean(path)
    ensures Relative(path) == Some(path)
  {
    var parts: seq<string> :| parts != [] && (forall part <- parts :: ProperName(part)) && path == Join(parts, '/');
    SplitJoin(parts, '/');
    PlainComponents(parts);
    assert parts[0] in parts && path[0] == parts[0][0];
    assert Components(path) == ComponentsOf(parts);
  }

  // ---------------------------------------------------------------- archives

  datatype EntryKind = Directory | File | Other

  /** One archive entry: its path as spelled, what it claims to be, and the bytes it carries. */
  datatype ArchiveEntry = ArchiveEntry(path: string, kind: EntryKind, declared: int, data: Bytes)

  /** Bounds on what an archive may expand to. */
  datatype Limits = Limits(entries: nat, totalBytes: nat, fileBytes: nat)

  datatype PackageError = UnsafePath | UnsafeEntry | DuplicateEntry | TooLarge | Conflict

  type FileTree = map<string, Bytes>

  /** A file stands where a directory is needed, or a directory where the file should go. */
  predicate Clashes(tree: FileTree, name: string) {
    exists other <- tree :: other + "/" <= name || name + "/" <= other
  }

  ghost function FilesUpTo(entries: seq<ArchiveEntry>, k: nat): seq<ArchiveEntry>
    requires k <= |entries|
  {
    if k == 0 then []
    else if entries[k - 1].kind.File? then FilesUpTo(entries, k - 1) + [entries[k - 1]]
    else FilesUpTo(entries, k - 1)
  }

  ghost function DirsUpTo(entries: seq<ArchiveEntry>, k: nat): nat
    requires k <= |entries|
  {
    if k == 0 then 0 else DirsUpTo(entries, k - 1) + if entries[k - 1].kind.Directory? then 1 else 0
  }

  /** The files written in turn, each under its reduced path. */
  ghost function TreeOf(files: seq<ArchiveEntry>): FileTree {
    if files == [] then map[]
    else
      var last := |files| - 1;
      var rest := TreeOf(files[..last]);
      match Relative(files[last].path)
      case None => rest
      case Some(name) => rest[name := files[last].data]
  }

  ghost function TotalOf(files: seq<ArchiveEntry>): nat {
    if files == [] then 0 else TotalOf(files[..|files| - 1]) + |files[|files| - 1].data|
  }

  /** What is demanded of a file, given the files before it, their number and their size. */
  predicate FileAllowed(entry: ArchiveEntry, tree: FileTree, count: nat, total: nat, limits: Limits) {
    && Relative(entry.path).Some? && Relative(entry.path).value !in tree && !Clashes(tree, Relative(entry.path).value)
    && count < limits.entries && entry.declared <= limits.fileBytes && |entry.data| <= limits.fileBytes
    && total + |entry.data| <= limits.totalBytes
  }

  /** What is demanded of the entry at position `k`, given those before it. */
  ghost predicate EntryAllowed(entries: seq<ArchiveEntry>, limits: Limits, k: nat)
    requires k < |entries|
  {
    var entry, files := entries[k], FilesUpTo(entries, k);
    match entry.kind
    case Other => false
    case Directory => Relative(entry.path).Some? && DirsUpTo(entries, k) + 1 + |files| <= limits.entries
    case File => FileAllowed(entry, TreeOf(files), |files|, TotalOf(files), limits)
  }

  ghost predicate AllAllowed(entries: seq<ArchiveEntry>, limits: Limits, k: nat)
    requires k <= |entries|
  {
    forall i :: 0 <= i < k ==> EntryAllowed(entries, limits, i)
  }

  /** The files so far are in the tree, under their names, and the counters say so. */
  ghost predicate Unpacked(entries: seq<ArchiveEntry>, k: nat, tree: FileTree, total: nat, dirs: nat)
    requires k <= |entries|
  {
    var files := FilesUpTo(entries, k);
    && tree == TreeOf(files) && |tree.Keys| == |files|
    && total == TotalOf(files) && dirs == DirsUpTo(entries, k)
  }

  lemma UnpackedMore(entries: seq<ArchiveEntry>, limits: Limits, k: nat, tree: FileTree, total: nat, dirs: nat)
    requires k < |entries| && Unpacked(entries, k, tree, total, dirs)
    ensures entries[k].kind.Directory? ==> Unpacked(entries, k + 1, tree, total, dirs + 1)
    ensures EntryAllowed(entries, limits, k) <==>
      match entries[k].kind
      case Other => false
      case Directory => Relative(entries[k].path).Some? && dirs + 1 + |tree.Keys| <= limits.entries
      case File => FileAllowed(entries[k], tree, |tree.Keys|, total, limits)
    ensures entries[k].kind.File? && EntryAllowed(entries, limits, k) ==>
      var name := Relative(entries[k].path).value;
      Unpacked(entries, k + 1, tree[name := entries[k].data], total + |entries[k].data|, dirs)
  {
    var files := FilesUpTo(entries, k);
    if entries[k].kind.File? && EntryAllowed(entries, limits, k) {
      var name := Relative(entries[k].path).value;
      assert (files + [entries[k]])[..|files|] == files;
      assert tree[name := entries[k].data].Keys == tree.Keys + {name};
    }
  }

  /** How many bytes a tree holds. */
  ghost function SizeOf(tree: FileTree): nat
    decreases |tree.Keys|
  {
    if tree == map[] then 0
    else
      var name :| name in tree;
      SmallerTree(tree, name);
      |tree[name]| + SizeOf(tree - {name})
  }

  lemma SmallerTree(tree: FileTree, name: string)
    requires name in tree
    ensures |(tree - {name}).Keys| < |tree.Keys|
  {
    assert (tree - {name}).Keys == tree.Keys - {name};
  }

  lemma {:induction false} SizeLess(tree: FileTree, name: string)
    requires name in tree
    ensures SizeOf(tree) == |tree[name]| + SizeOf(tree - {name})
    decreases |tree.Keys|
  {
    var first :| first in tree && SizeOf(tree) == |tree[first]| + SizeOf(tree - {first});
    if first != name {
      SmallerTree(tree, first);
      SmallerTree(tree, name);
      SizeLess(tree - {first}, name);
      SizeLess(tree - {name}, first);
      assert tree - {first} - {name} == tree - {name} - {first};
    }
  }

  lemma SizeMore(tree: FileTree, name: string, data: Bytes)
    requires name !in tree
    ensures SizeOf(tree[name := data]) == SizeOf(tree) + |data|
  {
    SizeLess(tree[name := data], name);
    assert tree[name := data] - {name} == tree;
  }

  /** Nothing in the tree or in all of it passes the limits by more than one file, or stands outside the destination. */
  ghost predicate Bounded(tree: FileTree, limits: Limits) {
    && |tree.Keys| <= limits.entries && SizeOf(tree) <= limits.totalBytes + limits.fileBytes + 1
    && forall name <- tree :: |tree[name]| <= limits.fileBytes + 1 && Clean(name)
  }

  /** Writes one file, if it is allowed; `seen` are the names written before. */
  method UnpackFile(entry: ArchiveEntry, before: FileTree, seen0: set<string>, total: nat, limits: Limits)
    returns (r: Option<PackageError>, tree: FileTree, seen: set<string>)
    requires seen0 == before.Keys && Bounded(before, limits) && SizeOf(before) == total <= limits.totalBytes
    ensures r.None? <==> FileAllowed(entry, before, |before.Keys|, total, limits)
    ensures r.None? ==> tree == before[Relative(entry.path).value := entry.data] && seen == tree.Keys
    ensures r.None? ==> SizeOf(tree) == total + |entry.data| <= limits.totalBytes
    ensures Bounded(tree, limits)
  {
    hide SizeOf, Clashes, Clean, Relative;
    tree, seen := before, seen0;
    var relative := SafeRelative(entry.path);
    if relative.None? {
      return Some(UnsafePath), tree, seen;
    }
    var name := relative.value;
    RelativeIsClean(entry.path);
    if name in seen {
      return Some(DuplicateEntry), tree, seen;
    }
    seen := seen + {name};
    if |seen| > limits.entries || entry.declared > limits.fileBytes {
      return Some(TooLarge), tree, seen;
    }
    if Clashes(tree, name) {
      return Some(Conflict), tree, seen;
    }
    // A header can understate what the stream carries, so the copy itself is bounded.
    var budget := limits.fileBytes + 1;
    var written := if |entry.data| <= budget then entry.data else entry.data[..budget];
    SizeMore(tree, name, written);
    tree := tree[name := written];
    assert tree.Keys == seen;
    if |written| > limits.fileBytes || total + |written| > limits.totalBytes {
      return Some(TooLarge), tree, seen;
    }
    r := None;
  }

  /**
   * Extracts an archive into an empty directory. It succeeds exactly when every entry is
   * allowed after those before it, and then the directory holds just the archive's files.
   * Whatever happens, nothing lands outside it, no file passes its limit by more than a byte, and
   * the whole passes its own by no more than that one file.
   */
  method Unpack(entries: seq<ArchiveEntry>, limits: Limits) returns (r: Option<PackageError>, tree: FileTree)
    ensures r.None? <==> AllAllowed(entries, limits, |entries|)
    ensures r.None? ==> tree == TreeOf(FilesUpTo(entries, |entries|))
    ensures Bounded(tree, limits)
  {
    r, tree := None, map[];
    var seen: set<string>, total: nat, dirs: nat := {}, 0, 0;
    for k := 0 to |entries|
      invariant AllAllowed(entries, limits, k) && Unpacked(entries, k, tree, total, dirs)
      invariant r == None && seen == tree.Keys && Bounded(tree, limits) && SizeOf(tree) == total <= limits.totalBytes
    {
      hide Unpacked, EntryAllowed, FileAllowed, Bounded, SizeOf;
      UnpackedMore(entries, limits, k, tree, total, dirs);
      if entries[k].kind.Directory? {
        var relative := SafeRelative(entries[k].path);
        if relative.None? {
          return Some(UnsafePath), tree;
        }
        dirs := dirs + 1;
        if dirs + |seen| > limits.entries {
          return Some(TooLarge), tree;
        }
      } else if !entries[k].kind.File? {
        return Some(UnsafeEntry), tree;
      } else {
        r, tree, seen := UnpackFile(entries[k], tree, seen, total, limits);
        if r.Some? {
          return r, tree;
        }
        total := total + |entries[k].data|;
      }
    }
  }

  // ---------------------------------------------------------------- repacking

  /** Some file of the archive delivers these bytes under this name. */
  ghost predicate Delivers(files: seq<ArchiveEntry>, name: string, data: Bytes) {
    files != [] &&
    (var last := |files| - 1;
     (Relative(files[last].path) == Some(name) && files[last].data == data) || Delivers(files[..last], name, data))
  }

  /** Every file has a name, and no two share one. */
  ghost predicate NamedApart(files: seq<ArchiveEntry>) {
    files != [] ==>
      var last := |files| - 1;
      && NamedApart(files[..last])
      && Relative(files[last].path).Some? && Relative(files[last].path).value !in TreeOf(files[..last])
  }

  lemma {:induction false} TreeHoldsFiles(files: seq<ArchiveEntry>, name: string, data: Bytes)
    requires NamedApart(files)
    ensures name in TreeOf(files) && TreeOf(files)[name] == data <==> Delivers(files, name, data)
  {
    if files != [] {
      TreeHoldsFiles(files[..|files| - 1], name, data);
    }
  }

  lemma {:induction false} AllowedFiles(entries: seq<ArchiveEntry>, limits: Limits, k: nat)
    requires k <= |entries| && AllAllowed(entries, limits, k)
    ensures NamedApart(FilesUpTo(entries, k))
  {
    if k > 0 {
      AllowedFiles(entries, limits, k - 1);
      assert EntryAllowed(entries, limits, k - 1);
      if entries[k - 1].kind.File? {
        var files := FilesUpTo(entries, k - 1);
        assert (files + [entries[k - 1]])[..|files|] == files;
      }
    }
  }

  lemma TreeWithin(s: seq<ArchiveEntry>, t: seq<ArchiveEntry>, name: string)
    requires NamedApart(s) && NamedApart(t) && name in TreeOf(s)
    requires forall data :: Delivers(s, name, data) ==> Delivers(t, name, data)
    ensures name in TreeOf(t) && TreeOf(t)[name] == TreeOf(s)[name]
  {
    TreeHoldsFiles(s, name, TreeOf(s)[name]);
    TreeHoldsFiles(t, name, TreeOf(s)[name]);
  }

  /**
   * Repacking keeps the plugin: two archives that both unpack, and deliver the same bytes under
   * the same names in whatever order and amid whatever directories, unpack to the same tree.
   */
  lemma RepackKeepsTree(a: seq<ArchiveEntry>, b: seq<ArchiveEntry>, limits: Limits, others: Limits)
    requires AllAllowed(a, limits, |a|) && AllAllowed(b, others, |b|)
    requires forall name, data :: Delivers(FilesUpTo(a, |a|), name, data) <==> Delivers(FilesUpTo(b, |b|), name, data)
    ensures TreeOf(FilesUpTo(a, |a|)) == TreeOf(FilesUpTo(b, |b|))
  {
    var s, t := FilesUpTo(a, |a|), FilesUpTo(b, |b|);
    AllowedFiles(a, limits, |a|);
    AllowedFiles(b, others, |b|);
    hide TreeOf, Delivers, NamedApart, AllAllowed, FilesUpTo;
    forall name | name in TreeOf(s) ensures name in TreeOf(t) && TreeOf(t)[name] == TreeOf(s)[name] {
      TreeWithin(s, t, name);
    }
    forall name | name in TreeOf(t) ensures name in TreeOf(s) {
      TreeWithin(t, s, name);
    }
    SameTrees(TreeOf(s), TreeOf(t));
  }

  lemma SameTrees(a: FileTree, b: FileTree)
    requires forall name | name in a :: name in b && b[name] == a[name]
    requires forall name | name in b :: name in a
    ensures a == b
  {
    assert a.Keys == b.Keys;
  }

  /** Writes a plugin directory to an archive, its files in name order. */
  ghost function Pack(tree: FileTree): (entries: seq<ArchiveEntry>)
    ensures |entries| == |tree.Keys|
  {
    var names := SortedKeys(tree.Keys);
    assert forall i :: 0 <= i < |names| ==> names[i] in tree;
    seq(|names|, i requires 0 <= i < |names| => ArchiveEntry(names[i], File, |tree[names[i]]|, tree[names[i]]))
  }

  /** A tree as directories hold it: clean paths, and no file where a directory is. */
  ghost predicate Standing(tree: FileTree) {
    forall name <- tree :: Clean(name) && !Clashes(tree, name)
  }

  /** The first `k` packed files are the first `k` names, each with its own bytes. */
  ghost predicate PackedTo(tree: FileTree, k: nat, part: FileTree)
    requires k <= |tree.Keys|
  {
    && (forall name :: name in part <==> name in SortedKeys(tree.Keys)[..k])
    && (forall name <- part :: name in tree && part[name] == tree[name])
  }

  lemma PackedEntry(tree: FileTree, k: nat)
    requires k < |tree.Keys|
    ensures var name := SortedKeys(tree.Keys)[k];
      name in tree && Pack(tree)[k] == ArchiveEntry(name, File, |tree[name]|, tree[name])
  {
    var names := SortedKeys(tree.Keys);
    assert names[k] in names;
  }

  lemma {:induction false} FilesAll(entries: seq<ArchiveEntry>, k: nat)
    requires k <= |entries| && forall i :: 0 <= i < |entries| ==> entries[i].kind.File?
    ensures FilesUpTo(entries, k) == entries[..k]
  {
    if k > 0 {
      FilesAll(entries, k - 1);
      assert entries[..k] == entries[..k - 1] + [entries[k - 1]];
    }
  }

  lemma PackedFiles(tree: FileTree, k: nat)
    requires k <= |tree.Keys|
    ensures FilesUpTo(Pack(tree), k) == Pack(tree)[..k]
  {
    forall i | 0 <= i < |Pack(tree)| ensures Pack(tree)[i].kind.File? {
      PackedEntry(tree, i);
    }
    hide Pack;
    FilesAll(Pack(tree), k);
  }

  lemma TreeStep(entries: seq<ArchiveEntry>, k: nat, name: string)
    requires k < |entries| && Relative(entries[k].path) == Some(name)
    ensures TreeOf(entries[..k + 1]) == TreeOf(entries[..k])[name := entries[k].data]
  {
    hide Relative;
    assert entries[..k + 1][..k] == entries[..k];
  }

  lemma PackedOneMore(tree: FileTree, k: nat, part: FileTree)
    requires k < |tree.Keys| && PackedTo(tree, k, part) && SortedKeys(tree.Keys)[k] in tree
    ensures var name := SortedKeys(tree.Keys)[k]; PackedTo(tree, k + 1, part[name := tree[name]])
  {
    hide SortedKeys;
    var names := SortedKeys(tree.Keys);
    assert names[..k + 1] == names[..k] + [names[k]];
  }

  lemma PackedNothing(tree: FileTree)
    ensures PackedTo(tree, 0, TreeOf(Pack(tree)[..0]))
  {
    assert Pack(tree)[..0] == [];
  }

  lemma PackedStep(tree: FileTree, k: nat)
    requires Standing(tree) && k < |tree.Keys|
    ensures var name := SortedKeys(tree.Keys)[k];
      name in tree && TreeOf(Pack(tree)[..k + 1]) == TreeOf(Pack(tree)[..k])[name := tree[name]]
  {
    PackedEntry(tree, k);
    CleanIsRelative(SortedKeys(tree.Keys)[k]);
    hide Pack, SortedKeys, Relative, Clean, TreeOf;
    TreeStep(Pack(tree), k, SortedKeys(tree.Keys)[k]);
  }

  lemma {:induction false} PackedTree(tree: FileTree, k: nat)
    requires Standing(tree) && k <= |tree.Keys|
    ensures PackedTo(tree, k, TreeOf(Pack(tree)[..k]))
  {
    hide Pack, SortedKeys, PackedTo, Standing, TreeOf;
    if k == 0 {
      PackedNothing(tree);
    } else {
      PackedTree(tree, k - 1);
      PackedStep(tree, k - 1);
      PackedOneMore(tree, k - 1, TreeOf(Pack(tree)[..k - 1]));
    }
  }

  lemma {:induction false} TotalGrows(entries: seq<ArchiveEntry>, k: nat)
    requires k <= |entries|
    ensures TotalOf(entries[..k]) <= TotalOf(entries)
    decreases |entries|
  {
    if k < |entries| {
      var last := |entries| - 1;
      assert entries[..last][..k] == entries[..k];
      TotalGrows(entries[..last], k);
    } else {
      assert entries[..k] == entries;
    }
  }

  /** Each packed file is allowed just when there is room for it. */
  lemma PackedFileAllowed(tree: FileTree, limits: Limits, k: nat)
    requires Standing(tree) && k < |tree.Keys|
    ensures EntryAllowed(Pack(tree), limits, k) <==>
      k < limits.entries && |Pack(tree)[k].data| <= limits.fileBytes &&
        TotalOf(Pack(tree)[..k + 1]) <= limits.totalBytes
  {
    hide Pack, SortedKeys, Relative, TreeOf, TotalOf, PackedTo, Clashes, FilesUpTo;
    var name, part := SortedKeys(tree.Keys)[k], TreeOf(Pack(tree)[..k]);
    PackedFiles(tree, k);
    PackedTree(tree, k);
    PackedEntry(tree, k);
    CleanIsRelative(name);
    NewToPrefix(tree, k, part);
    TotalStep(Pack(tree), k);
  }

  lemma TotalStep(entries: seq<ArchiveEntry>, k: nat)
    requires k < |entries|
    ensures TotalOf(entries[..k + 1]) == TotalOf(entries[..k]) + |entries[k].data|
  {
    assert entries[..k + 1][..k] == entries[..k];
  }

  lemma NewToPrefix(tree: FileTree, k: nat, part: FileTree)
    requires Standing(tree) && k < |tree.Keys| && PackedTo(tree, k, part) && SortedKeys(tree.Keys)[k] in tree
    ensures SortedKeys(tree.Keys)[k] !in part && !Clashes(part, SortedKeys(tree.Keys)[k])
  {
    SortedKeysOrdered(tree.Keys);
    var names := SortedKeys(tree.Keys);
    assert names[k] !in names[..k];
    assert forall other <- part :: other in tree;
    assert !Clashes(tree, names[k]);
  }

  /** There is room for the whole tree. */
  ghost predicate HasRoom(tree: FileTree, limits: Limits) {
    && |tree.Keys| <= limits.entries && TotalOf(Pack(tree)) <= limits.totalBytes
    && forall name <- tree :: |tree[name]| <= limits.fileBytes
  }

  lemma PackedIsWhole(tree: FileTree)
    requires Standing(tree)
    ensures TreeOf(FilesUpTo(Pack(tree), |Pack(tree)|)) == tree
  {
    hide Pack, TreeOf, SortedKeys, FilesUpTo, Standing;
    var names, entries := SortedKeys(tree.Keys), Pack(tree);
    PackedFiles(tree, |entries|);
    PackedTree(tree, |entries|);
    assert entries[..|entries|] == entries && names[..|names|] == names;
    forall name | name in tree ensures name in TreeOf(entries) {
      assert name in names;
    }
    SameTrees(TreeOf(entries), tree);
  }

  lemma RoomIsAllowed(tree: FileTree, limits: Limits)
    requires Standing(tree) && HasRoom(tree, limits)
    ensures AllAllowed(Pack(tree), limits, |Pack(tree)|)
  {
    hide EntryAllowed, TotalOf, FilesUpTo, Pack, Standing;
    var entries := Pack(tree);
    forall k | 0 <= k < |entries| ensures EntryAllowed(entries, limits, k) {
      PackedEntry(tree, k);
      PackedFileAllowed(tree, limits, k);
      TotalGrows(entries, k + 1);
    }
  }

  lemma AllowedHasRoom(tree: FileTree, limits: Limits)
    requires Standing(tree) && AllAllowed(Pack(tree), limits, |Pack(tree)|)
    ensures HasRoom(tree, limits)
  {
    hide EntryAllowed, TotalOf, FilesUpTo, Pack, Standing;
    var entries := Pack(tree);
    forall k | 0 <= k < |entries| ensures |entries[k].data| <= limits.fileBytes {
      PackedFileAllowed(tree, limits, k);
    }
    PackedSizes(tree, limits);
    NothingPacked(entries);
    if entries != [] {
      PackedFileAllowed(tree, limits, |entries| - 1);
      assert entries[..(|entries| - 1) + 1] == entries;
    }
  }

  /** What is packed can be unpacked again, exactly when it is within the limits, and is then the same tree. */
  lemma PackUnpacks(tree: FileTree, limits: Limits)
    requires Standing(tree)
    ensures AllAllowed(Pack(tree), limits, |Pack(tree)|) <==> HasRoom(tree, limits)
    ensures TreeOf(FilesUpTo(Pack(tree), |Pack(tree)|)) == tree
  {
    PackedIsWhole(tree);
    hide AllAllowed, HasRoom, Pack, Standing, TreeOf, FilesUpTo;
    if HasRoom(tree, limits) {
      RoomIsAllowed(tree, limits);
    }
    if AllAllowed(Pack(tree), limits, |Pack(tree)|) {
      AllowedHasRoom(tree, limits);
    }
  }

  lemma NothingPacked(entries: seq<ArchiveEntry>)
    ensures entries == [] ==> TotalOf(entries) == 0
  {
  }

  lemma PackedSizes(tree: FileTree, limits: Limits)
    requires forall k :: 0 <= k < |Pack(tree)| ==> |Pack(tree)[k].data| <= limits.fileBytes
    ensures forall name <- tree :: |tree[name]| <= limits.fileBytes
  {
    var names := SortedKeys(tree.Keys);
    forall name | name in tree ensures |tree[name]| <= limits.fileBytes {
      assert name in names;
      var k :| 0 <= k < |names| && names[k] == name;
      PackedEntry(tree, k);
    }
  }

  // ---------------------------------------------------------------- the order of entries

  /** Two files that can stand beside each other. */
  ghost predicate Together(a: ArchiveEntry, b: ArchiveEntry) {
    match (Relative(a.path), Relative(b.path))
    case (Some(x), Some(y)) => x != y && !(x + "/" <= y) && !(y + "/" <= x)
    case _ => false
  }

  lemma TogetherBothWays(a: ArchiveEntry, b: ArchiveEntry)
    ensures Together(a, b) <==> Together(b, a)
    ensures !Together(a, a)
  {
  }

  ghost predicate Sized(f: ArchiveEntry, limits: Limits) {
    Relative(f.path).Some? && f.declared <= limits.fileBytes && |f.data| <= limits.fileBytes
  }

  /** No file twice, and any two can stand beside each other. */
  ghost predicate Apart(files: seq<ArchiveEntry>) {
    && (forall f <- files :: multiset(files)[f] == 1)
    && (forall f, g :: f in files && g in files && f != g ==> Together(f, g))
  }

  /** What is demanded of an archive's files, in whatever order they come. */
  ghost predicate FilesFit(files: seq<ArchiveEntry>, limits: Limits) {
    && (forall f <- files :: Sized(f, limits)) && Apart(files)
    && |files| <= limits.entries && TotalOf(files) <= limits.totalBytes
  }

  lemma {:induction false} TreeNames(files: seq<ArchiveEntry>, name: string)
    ensures name in TreeOf(files) <==> exists f <- files :: Relative(f.path) == Some(name)
  {
    hide Relative;
    if files != [] {
      var last := |files| - 1;
      TreeNames(files[..last], name);
      assert files == files[..last] + [files[last]];
    }
  }

  lemma ApartOn(files: seq<ArchiveEntry>, entry: ArchiveEntry)
    ensures Apart(files + [entry]) <==> Apart(files) && forall f <- files :: Together(f, entry)
  {
    var more := files + [entry];
    hide Together;
    assert multiset(more) == multiset(files) + multiset{entry};
    assert forall f :: f in more <==> f in files || f == entry;
    TogetherBothWays(entry, entry);
    forall f ensures Together(f, entry) <==> Together(entry, f) {
      TogetherBothWays(f, entry);
    }
    if Apart(more) {
      assert multiset(more)[entry] == 1;
      forall f <- files ensures f != entry && multiset(files)[f] == 1 {
        assert multiset(more)[f] == 1 && multiset(files)[f] >= 1;
      }
    }
  }

  lemma StandsApartIff(files: seq<ArchiveEntry>, entry: ArchiveEntry, name: string)
    requires Relative(entry.path) == Some(name) && forall f <- files :: Relative(f.path).Some?
    ensures name !in TreeOf(files) && !Clashes(TreeOf(files), name) <==> forall f <- files :: Together(f, entry)
  {
    var tree := TreeOf(files);
    forall other ensures other in tree <==> exists f <- files :: Relative(f.path) == Some(other) {
      TreeNames(files, other);
    }
    hide TreeOf, Relative;
    forall f <- files ensures Relative(f.path).value in tree {
    }
  }

  /** One file more fits exactly when it is allowed after the others. */
  lemma FilesFitOn(files: seq<ArchiveEntry>, entry: ArchiveEntry, limits: Limits)
    ensures FilesFit(files + [entry], limits) <==>
      FilesFit(files, limits) && FileAllowed(entry, TreeOf(files), |files|, TotalOf(files), limits)
  {
    var more := files + [entry];
    assert more[..|files|] == files;
    assert TotalOf(more) == TotalOf(files) + |entry.data|;
    assert (forall f <- more :: Sized(f, limits)) <==> (forall f <- files :: Sized(f, limits)) && Sized(entry, limits);
    ApartOn(files, entry);
    hide TotalOf, TreeOf, Apart, Relative, Together, Clashes;
    if (forall f <- files :: Sized(f, limits)) && Sized(entry, limits) {
      StandsApartIff(files, entry, Relative(entry.path).value);
    }
  }

  /** What is demanded of the entry at position `i` of an archive without regard to the files before it. */
  ghost predicate Placeable(entry: ArchiveEntry, i: nat, limits: Limits) {
    match entry.kind
    case Other => false
    case Directory => Relative(entry.path).Some? && i + 1 <= limits.entries
    case File => true
  }

  ghost predicate AllPlaceable(entries: seq<ArchiveEntry>, limits: Limits, k: nat)
    requires k <= |entries|
  {
    forall i :: 0 <= i < k ==> Placeable(entries[i], i, limits)
  }

  lemma {:induction false} EachCounted(entries: seq<ArchiveEntry>, k: nat)
    requires k <= |entries| && forall i :: 0 <= i < k ==> !entries[i].kind.Other?
    ensures DirsUpTo(entries, k) + |FilesUpTo(entries, k)| == k
  {
    if k > 0 {
      EachCounted(entries, k - 1);
    }
  }

  /** An archive is accepted when its files fit, and each directory has room for all entries up to it. */
  lemma {:induction false} AllowedIff(entries: seq<ArchiveEntry>, limits: Limits, k: nat)
    requires k <= |entries|
    ensures AllAllowed(entries, limits, k) <==>
      FilesFit(FilesUpTo(entries, k), limits) && AllPlaceable(entries, limits, k)
  {
    hide EntryAllowed, Placeable;
    if k > 0 {
      hide FilesFit, FilesUpTo;
      AllowedIff(entries, limits, k - 1);
      AllowedStep(entries, limits, k - 1);
      assert AllAllowed(entries, limits, k) <==>
          AllAllowed(entries, limits, k - 1) && EntryAllowed(entries, limits, k - 1);
    }
  }

  lemma AllowedStep(entries: seq<ArchiveEntry>, limits: Limits, k: nat)
    requires k < |entries|
    ensures FilesFit(FilesUpTo(entries, k + 1), limits) && AllPlaceable(entries, limits, k + 1) <==>
      && FilesFit(FilesUpTo(entries, k), limits) && AllPlaceable(entries, limits, k)
      && EntryAllowed(entries, limits, k)
  {
    FilesFitOn(FilesUpTo(entries, k), entries[k], limits);
    if AllPlaceable(entries, limits, k) {
      EachCounted(entries, k);
    }
    hide FilesFit, FileAllowed, Relative;
  }

  lemma {:induction false} FilesCounted(entries: seq<ArchiveEntry>, k: nat, e: ArchiveEntry)
    requires k <= |entries|
    ensures multiset(FilesUpTo(entries, k))[e] == if e.kind.File? then multiset(entries[..k])[e] else 0
  {
    if k > 0 {
      FilesCounted(entries, k - 1, e);
      assert entries[..k] == entries[..k - 1] + [entries[k - 1]];
    }
  }

  lemma Without<T>(s: seq<T>, k: nat)
    requires k < |s|
    ensures multiset(s) == multiset(s[..k] + s[k + 1..]) + multiset{s[k]}
  {
    assert s == s[..k] + [s[k]] + s[k + 1..];
  }

  lemma {:induction false} SameTotal(a: seq<ArchiveEntry>, b: seq<ArchiveEntry>)
    requires multiset(a) == multiset(b)
    ensures TotalOf(a) == TotalOf(b)
    decreases |a|
  {
    hide TotalOf;
    assert |multiset(a)| == |multiset(b)|;
    if a != [] {
      var last := |a| - 1;
      assert a[last] in multiset(b);
      var k :| 0 <= k < |b| && b[k] == a[last];
      Without(a, last);
      Without(b, k);
      TotalWithout(a, last);
      TotalWithout(b, k);
      var rest, others := a[..last] + a[last + 1..], b[..k] + b[k + 1..];
      assert multiset(rest) == multiset(a) - multiset{a[last]} == multiset(others);
      SameTotal(rest, others);
    }
  }

  lemma {:induction false} TotalWithout(files: seq<ArchiveEntry>, k: nat)
    requires k < |files|
    ensures TotalOf(files) == TotalOf(files[..k] + files[k + 1..]) + |files[k].data|
    decreases |files|
  {
    var last := |files| - 1;
    if k < last {
      TotalWithout(files[..last], k);
      var rest := files[..k] + files[k + 1..];
      assert rest[..|rest| - 1] == files[..last][..k] + files[..last][k + 1..];
    } else {
      assert files[..k] + files[k + 1..] == files[..last];
    }
  }

  /** The same files fit in any order. */
  lemma SameFilesFit(s: seq<ArchiveEntry>, t: seq<ArchiveEntry>, limits: Limits)
    requires multiset(s) == multiset(t) && FilesFit(s, limits)
    ensures FilesFit(t, limits)
  {
    SameTotal(s, t);
    hide TotalOf, Sized, Together;
    assert |multiset(s)| == |multiset(t)|;
    forall e ensures e in t <==> e in s {
      assert e in t <==> e in multiset(t);
      assert e in s <==> e in multiset(s);
    }
  }

  lemma SameFiles(a: seq<ArchiveEntry>, b: seq<ArchiveEntry>)
    requires multiset(a) == multiset(b)
    ensures multiset(FilesUpTo(a, |a|)) == multiset(FilesUpTo(b, |b|))
  {
    hide FilesUpTo;
    assert a[..|a|] == a && b[..|b|] == b;
    forall e ensures multiset(FilesUpTo(a, |a|))[e] == multiset(FilesUpTo(b, |b|))[e] {
      FilesCounted(a, |a|, e);
      FilesCounted(b, |b|, e);
    }
  }

  /**
   * The entry limit counts directories only as they come by. So of an archive that is accepted,
   * every order of its entries is exactly when it has no directory, or no more entries than that.
   */
  lemma EveryOrderIff(a: seq<ArchiveEntry>, limits: Limits)
    ensures (forall b :: multiset(b) == multiset(a) ==> AllAllowed(b, limits, |b|)) <==>
      && AllAllowed(a, limits, |a|)
      && ((forall e <- a :: !e.kind.Directory?) || |a| <= limits.entries)
  {
    hide AllAllowed;
    if (forall e <- a :: !e.kind.Directory?) || |a| <= limits.entries {
      forall b | multiset(b) == multiset(a) && AllAllowed(a, limits, |a|) ensures AllAllowed(b, limits, |b|) {
        AnyOrder(a, b, limits);
      }
    } else {
      DirectoryLast(a, limits);
    }
  }

  lemma AnyOrder(a: seq<ArchiveEntry>, b: seq<ArchiveEntry>, limits: Limits)
    requires multiset(b) == multiset(a) && AllAllowed(a, limits, |a|)
    requires (forall e <- a :: !e.kind.Directory?) || |a| <= limits.entries
    ensures AllAllowed(b, limits, |b|)
  {
    hide FilesFit, Relative, FilesUpTo, AllAllowed;
    AllowedIff(a, limits, |a|);
    AllowedIff(b, limits, |b|);
    SameFiles(a, b);
    SameFilesFit(FilesUpTo(a, |a|), FilesUpTo(b, |b|), limits);
    assert |multiset(a)| == |multiset(b)|;
    forall i | 0 <= i < |b| ensures Placeable(b[i], i, limits) {
      assert b[i] in multiset(a);
      var k :| 0 <= k < |a| && a[k] == b[i];
      assert Placeable(a[k], k, limits);
    }
  }

  /** With a directory to come last, there must be room for everything. */
  lemma DirectoryLast(a: seq<ArchiveEntry>, limits: Limits)
    requires (exists e <- a :: e.kind.Directory?) && |a| > limits.entries
    ensures exists b :: multiset(b) == multiset(a) && !AllAllowed(b, limits, |b|)
  {
    hide FilesFit, Relative, FilesUpTo, AllAllowed;
    var e :| e in a && e.kind.Directory?;
    var k :| 0 <= k < |a| && a[k] == e;
    var rest := a[..k] + a[k + 1..];
    Without(a, k);
    var b := rest + [e];
    assert multiset(b) == multiset(rest) + multiset{e};
    AllowedIff(b, limits, |b|);
    assert !Placeable(b[|rest|], |rest|, limits);
  }

  /** A concrete archive of which one order is accepted and the other is not. */
  lemma EntryOrderDecides() returns (a: seq<ArchiveEntry>, b: seq<ArchiveEntry>, limits: Limits)
    ensures multiset(a) == multiset(b) && AllAllowed(a, limits, |a|) && !AllAllowed(b, limits, |b|)
  {
    var dir, file := ArchiveEntry("d", Directory, 0, []), ArchiveEntry("f", File, 0, []);
    a, b, limits := [dir, file], [file, dir], Limits(1, 10, 10);
    assert multiset(a) == multiset{dir, file} == multiset(b);
    OneNameIsRelative("d");
    OneNameIsRelative("f");
    DirectoryFirst(a, dir, file, limits);
    FileFirst(b, dir, file, limits);
  }

  lemma OneNameIsRelative(part: string)
    requires ProperName(part)
    ensures Relative(part) == Some(part)
  {
    var parts := [part];
    assert part == Join(parts, '/');
    CleanIsRelative(part);
  }

  lemma DirectoryFirst(entries: seq<ArchiveEntry>, dir: ArchiveEntry, file: ArchiveEntry, limits: Limits)
    requires entries == [dir, file] && dir.kind.Directory? && file.kind.File? && file.data == [] && file.declared == 0
    requires Relative(dir.path).Some? && Relative(file.path).Some? && limits.entries == 1
    ensures AllAllowed(entries, limits, |entries|)
  {
    hide Relative;
    assert FilesUpTo(entries, 0) == [] && FilesUpTo(entries, 1) == [];
    assert EntryAllowed(entries, limits, 0) && EntryAllowed(entries, limits, 1);
  }

  lemma FileFirst(entries: seq<ArchiveEntry>, dir: ArchiveEntry, file: ArchiveEntry, limits: Limits)
    requires entries == [file, dir] && dir.kind.Directory? && file.kind.File? && limits.entries == 1
    ensures !AllAllowed(entries, limits, |entries|)
  {
    hide Relative;
    assert FilesUpTo(entries, 0) == [] && FilesUpTo(entries, 1) == [file];
    assert !EntryAllowed(entries, limits, 1);
  }
}
