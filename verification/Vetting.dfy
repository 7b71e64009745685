/** What a plugin must pass to be loaded, and how a load accounts for every plugin it found. */
module Vetting {
  import opened Wrappers
  import opened Distinctness
  import opened Manifests
  import opened Failures
  import opened Signatures
  import opened Locks
  import opened Capabilities
  import opened Requirements
  import Packages
  import Paths
  import Texts
  import Resolution

  // ---------------------------------------------------------------- what is loaded, and from what

  /** A live instance: opaque, but built from certain bytes. */
  datatype Instance = Instance(source: Bytes)

  datatype LoadedPlugin = LoadedPlugin(
    manifest: Manifest, instance: Instance, granted: seq<string>, signer: Signer, digest: Option<DirectoryDigest>)
  {
    function Name(): string {
      manifest.name
    }
  }

  /** One verified manifest with its digest-bound entry bytes, awaiting a backend. */
  datatype ReadyItem = ReadyItem(manifest: Manifest, entryBytes: Bytes, signer: Signer, digest: Option<DirectoryDigest>)

  datatype Outcome =
    | Loaded(name: string, instance: Instance, granted: seq<string>)
    | Failed(name: string, dir: string)

  datatype Reloaded = Reloaded(instance: Instance, granted: seq<string>)

  /** A runtime, by what it answers when handed verified plugins. */
  datatype Backend = Backend(load: seq<ReadyItem> -> seq<Outcome>, reload: ReadyItem -> Option<Reloaded>)

  type Backends = map<PluginType, Backend>

  datatype VerifyError = Missing | Untrusted | Unread | Invalid

  /** Judges a digest by the signature files that lie beside the plugin. */
  type Verifier = (DirectoryDigest, Bytes) -> Result<Signer, VerifyError>

  /** What the builder calls fixed before the first load. */
  datatype Config = Config(
    host: Host, sha: HashFunction, verifier: Option<Verifier>, requireSignatures: bool, lockfile: Option<Lockfile>)

  /** What one call finds on disk. A later call may find something else. */
  datatype Disk = Disk(
    files: string -> seq<FileEntry>, signature: string -> Bytes, entry: Manifest -> Option<Bytes>,
    installed: Installation, manifest: string -> Option<Manifest>, validates: Manifest -> bool)

  datatype LoadReport = LoadReport(loaded: seq<string>, failures: seq<LoadFailure>)

  type Revocations = Option<seq<Revocation>>

  // ---------------------------------------------------------------- the invariant

  function PluginNames(plugins: seq<LoadedPlugin>): (names: seq<string>)
    ensures |names| == |plugins|
    ensures forall i :: 0 <= i < |plugins| ==> names[i] == plugins[i].Name()
  {
    seq(|plugins|, i requires 0 <= i < |plugins| => plugins[i].Name())
  }

  /** `index` is exactly the inverse of the plugin vector. */
  ghost predicate Indexed(plugins: seq<LoadedPlugin>, index: map<string, int>) {
    && (forall i :: 0 <= i < |plugins| ==> plugins[i].Name() in index && index[plugins[i].Name()] == i)
    && (forall name <- index :: 0 <= index[name] < |plugins| && plugins[index[name]].Name() == name)
  }

  /** The signer is one the verifier named for this digest, or unsigned where that is allowed. */
  ghost predicate Vouched(config: Config, signer: Signer, digest: Option<DirectoryDigest>) {
    || (signer == Signer.Unsigned && !config.requireSignatures)
    || (config.verifier.Some? && digest.Some? &&
      exists signature :: config.verifier.value(digest.value, signature) == Ok(signer))
  }

  /** The digest folds the very files it lists. */
  ghost predicate Folds(digest: DirectoryDigest, sha: HashFunction) {
    digest.preimage == Preimage(digest.files) && digest.root == sha(digest.preimage)
  }

  /** Digest and signer satisfy everything the registry demands. */
  ghost predicate Cleared(config: Config, list: Revocations, m: Manifest, signer: Signer,
                          digest: Option<DirectoryDigest>)
  {
    && (digest.None? ==> config.verifier.None? && config.lockfile.None?)
    && (digest.Some? ==> Folds(digest.value, config.sha))
    && Vouched(config, signer, digest)
    && (list.Some? ==> !Revokes(list.value, digest, signer))
    && (config.lockfile.Some? && digest.Some? ==> Check(config.lockfile.value, m, digest.value, signer).None?)
  }

  /** The bytes are those the digest recorded for the manifest's entry. */
  ghost predicate Bound(config: Config, m: Manifest, bytes: Bytes, digest: Option<DirectoryDigest>) {
    digest.Some? ==>
      && Paths.SlashPath(m.entry) in digest.value.files
      && digest.value.files[Paths.SlashPath(m.entry)] == config.sha(bytes)
  }

  ghost function ApprovedNames(config: Config, m: Manifest, signer: Signer): seq<string> {
    ApprovalNames(Approved(m, signer.Display(), config.host))
  }

  ghost predicate GrantsWithin(granted: seq<string>, approved: seq<string>) {
    forall c <- granted :: c in approved
  }

  /** What is true of every plugin for as long as it is loaded. */
  ghost predicate Sound(config: Config, list: Revocations, p: LoadedPlugin) {
    && Cleared(config, list, p.manifest, p.signer, p.digest)
    && Bound(config, p.manifest, p.instance.source, p.digest)
    && GrantsWithin(p.granted, ApprovedNames(config, p.manifest, p.signer))
  }

  ghost predicate AllSound(config: Config, list: Revocations, plugins: seq<LoadedPlugin>) {
    forall p <- plugins :: Sound(config, list, p)
  }

  lemma IndexedDistinct(plugins: seq<LoadedPlugin>, index: map<string, int>)
    requires Indexed(plugins, index)
    ensures Distinct(PluginNames(plugins))
    ensures forall x :: x in index <==> x in PluginNames(plugins)
  {
    var names := PluginNames(plugins);
    forall i, j | 0 <= i < j < |names| ensures names[i] != names[j] {
      assert index[plugins[i].Name()] == i && index[plugins[j].Name()] == j;
    }
    forall x ensures x in index <==> x in names {
      if x in index {
        assert names[index[x]] == x;
      }
    }
  }

  lemma IndexedPush(plugins: seq<LoadedPlugin>, index: map<string, int>, p: LoadedPlugin)
    requires Indexed(plugins, index) && p.Name() !in index
    ensures Indexed(plugins + [p], index[p.Name() := |plugins|])
  {
  }

  /** A pinned plugin that is loaded covers the very files that were pinned, or exhibits a hash collision. */
  lemma PinnedContents(config: Config, list: Revocations, p: LoadedPlugin, pinned: DirectoryDigest)
    requires Sound(config, list, p) && pinned.Genuine(config.sha)
    requires config.lockfile.Some? && p.Name() in config.lockfile.value
    requires config.lockfile.value[p.Name()].digest == PinOf(pinned).digest
    requires p.digest.Some? ==> NulFreePaths(p.digest.value.files)
    ensures p.digest.Some?
    ensures p.digest.value.Matches(Paths.SlashPath(p.manifest.entry), p.instance.source, config.sha)
    ensures p.digest.value.files == pinned.files ||
      (p.digest.value.preimage != pinned.preimage && config.sha(p.digest.value.preimage) == config.sha(pinned.preimage))
  {
    PinIdentifiesContents(config.lockfile.value, p.manifest, pinned, p.digest.value, p.signer, config.sha);
  }

  // ---------------------------------------------------------------- verifying one plugin

  predicate WantsDigest(config: Config, list: Revocations) {
    config.verifier.Some? || config.lockfile.Some? || (list.Some? && list.value != [])
  }

  /** Who signed the plugin, or why that is not good enough. */
  function SignerOf(config: Config, digest: Option<DirectoryDigest>, signature: Bytes):
    (r: Result<Signer, FailureReason>)
    ensures forall signer :: r == Ok(signer) <==> SignedBy(config, digest, signature, signer)
    ensures r.Err? ==>
      var verdict := if config.verifier.Some? && digest.Some? then config.verifier.value(digest.value, signature)
                     else Err(Missing);
      && verdict.Err? && (r.error == FailureReason.Unsigned <==> verdict.error == Missing)
      && (r.error == UntrustedSigner <==> verdict.error == Untrusted)
      && (r.error == FailureReason.Io <==> verdict.error == Unread)
      && (r.error == SignatureInvalid <==> verdict.error == Invalid)
  {
    match (config.verifier, digest)
    case (Some(verifier), Some(d)) =>
      (match verifier(d, signature)
       case Ok(signer) => Ok(signer)
       case Err(Missing) => if config.requireSignatures then Err(FailureReason.Unsigned) else Ok(Signer.Unsigned)
       case Err(Untrusted) => Err(UntrustedSigner)
       case Err(Unread) => Err(FailureReason.Io)
       case Err(Invalid) => Err(SignatureInvalid))
    case _ => if config.requireSignatures then Err(FailureReason.Unsigned) else Ok(Signer.Unsigned)
  }

  /** Digest and signer are what these files and this signature come to. */
  ghost predicate Found(config: Config, list: Revocations, files: seq<FileEntry>, signature: Bytes,
                        signer: Signer, digest: Option<DirectoryDigest>)
  {
    && (digest.Some? <==>
        config.verifier.Some? || config.lockfile.Some? || (list.Some? && exists entry :: entry in list.value))
    && (digest.Some? ==> digest.value.files == HashesOf(files, config.sha) && forall e <- files :: !Unreadable(e))
    && SignedBy(config, digest, signature, signer)
  }

  /** The verifier named this signer, or there is none to name and none is needed. */
  ghost predicate SignedBy(config: Config, digest: Option<DirectoryDigest>, signature: Bytes, signer: Signer) {
    if config.verifier.Some? && digest.Some? then
      match config.verifier.value(digest.value, signature)
      case Ok(named) => signer == named
      case Err(problem) => problem == Missing && !config.requireSignatures && signer == Signer.Unsigned
    else !config.requireSignatures && signer == Signer.Unsigned
  }

  /** A plugin found sound under a list with entries is not on it, by its files as they were found. */
  lemma FoundIsUndenied(config: Config, list: seq<Revocation>, m: Manifest, files: seq<FileEntry>, signature: Bytes,
                        signer: Signer, digest: Option<DirectoryDigest>)
    requires Found(config, Some(list), files, signature, signer, digest) && list != []
    requires Cleared(config, Some(list), m, signer, digest)
    ensures forall e <- files :: !Unreadable(e)
    ensures digest == Some(DigestNow(config, files))
    ensures forall entry <- list :: !Withdraws(entry, digest, signer)
  {
    assert list[0] in list;
    RevokesIff(list, digest, signer);
  }

  ghost function DigestNow(config: Config, files: seq<FileEntry>): DirectoryDigest {
    var hashes := HashesOf(files, config.sha);
    DirectoryDigest(config.sha(Preimage(hashes)), Preimage(hashes), hashes)
  }

  ghost function DigestWanted(config: Config, list: Revocations, files: seq<FileEntry>): Option<DirectoryDigest> {
    if config.verifier.Some? || config.lockfile.Some? || (list.Some? && list.value != []) then
      Some(DigestNow(config, files))
    else None
  }

  /** What clears on these files clears with the one digest wanted of them. */
  lemma ClearedAsFound(config: Config, list: Revocations, m: Manifest, files: seq<FileEntry>, signature: Bytes)
    ensures forall s, d :: Found(config, list, files, signature, s, d) && Cleared(config, list, m, s, d) ==>
      && d == DigestWanted(config, list, files) && SignerOf(config, d, signature) == Ok(s)
      && (d.Some? ==> forall e <- files :: !Unreadable(e))
  {
    AnyEntry(list);
  }

  lemma AnyEntry(list: Revocations)
    ensures list.Some? ==> ((exists entry :: entry in list.value) <==> list.value != [])
  {
    assert list.Some? && list.value != [] ==> list.value[0] in list.value;
  }

  /** With readable files and an acceptable signer, only the lists and pins stand in the way. */
  lemma ClearedIff(config: Config, list: Revocations, m: Manifest, files: seq<FileEntry>, signature: Bytes,
                   signer: Signer, digest: Option<DirectoryDigest>)
    requires digest == DigestWanted(config, list, files) && SignerOf(config, digest, signature) == Ok(signer)
    requires digest.Some? ==> forall e <- files :: !Unreadable(e)
    ensures Found(config, list, files, signature, signer, digest)
    ensures Cleared(config, list, m, signer, digest) <==>
      && !(list.Some? && Revokes(list.value, digest, signer))
      && !(config.lockfile.Some? && digest.Some? && Check(config.lockfile.value, m, digest.value, signer).Some?)
  {
    AnyEntry(list);
    hide Revokes, Check, Preimage, HashesOf;
  }

  /** The reason a plugin that cannot be verified, read and bound is refused for: the first check it fails. */
  ghost function Refusal(config: Config, list: Revocations, disk: Disk, m: Manifest): FailureReason {
    var files := disk.files(m.dir);
    var digest := DigestWanted(config, list, files);
    var signer := SignerOf(config, digest, disk.signature(m.dir));
    if digest.Some? && exists e <- files :: Unreadable(e) then FailureReason.Io
    else if signer.Err? then signer.error
    else if list.Some? && Revokes(list.value, digest, signer.value) then FailureReason.Revoked
    else if config.lockfile.Some? && digest.Some? &&
      Check(config.lockfile.value, m, digest.value, signer.value).Some? then FailureReason.Locked
    else if disk.entry(m).None? then FailureReason.Io
    else if digest.Some? && !digest.value.Covers(Paths.SlashPath(m.entry)) then UncoveredFile
    else FailureReason.DigestMismatch
  }

  /** A plugin directory passes exactly when what it comes to satisfies every demand. */
  method VerifyPlugin(config: Config, list: Revocations, m: Manifest, disk: Disk)
    returns (r: Result<(Signer, Option<DirectoryDigest>), FailureReason>)
    ensures r.Ok? ==> Cleared(config, list, m, r.value.0, r.value.1)
    ensures r.Ok? ==> Found(config, list, disk.files(m.dir), disk.signature(m.dir), r.value.0, r.value.1)
    ensures r.Err? ==> r.error == Refusal(config, list, disk, m)
    ensures r.Ok? && disk.entry(m).Some? ==>
      var bound := BindEntry(config, m, r.value.1, disk.entry(m).value);
      bound.Some? ==> bound.value == Refusal(config, list, disk, m)
    ensures r.Ok? && list.Some? && list.value != [] ==>
      && (forall e <- disk.files(m.dir) :: !Unreadable(e))
      && forall entry <- list.value :: !Withdraws(entry, Some(DigestNow(config, disk.files(m.dir))), r.value.0)
    ensures r.Ok? && disk.entry(m).None? ==> Refusal(config, list, disk, m) == FailureReason.Io
    ensures r.Err? ==> forall signer, digest ::
      Found(config, list, disk.files(m.dir), disk.signature(m.dir), signer, digest) ==>
        !Cleared(config, list, m, signer, digest)
  {
    hide Found, Cleared, SignerOf, Revokes, Check, Withdraws;
    ghost var files, signature := disk.files(m.dir), disk.signature(m.dir);
    ClearedAsFound(config, list, m, files, signature);
    var digest: Option<DirectoryDigest> := None;
    if WantsDigest(config, list) {
      digest := Compute(disk.files(m.dir), config.sha);
      if digest.None? {
        return Err(FailureReason.Io);
      }
    }
    assert digest == DigestWanted(config, list, files);
    var signer := SignerOf(config, digest, disk.signature(m.dir));
    if signer.Err? {
      return Err(signer.error);
    }
    ClearedIff(config, list, m, files, signature, signer.value, digest);
    if list.Some? {
      RevokesIff(list.value, digest, signer.value);
    }
    if list.Some? && Revokes(list.value, digest, signer.value) {
      r := Err(FailureReason.Revoked);
    } else if config.lockfile.Some? && digest.Some? &&
      Check(config.lockfile.value, m, digest.value, signer.value).Some? {
      r := Err(FailureReason.Locked);
    } else {
      r := Ok((signer.value, digest));
    }
  }

  /** Confirms that the entry bytes are the bytes the digest verified. */
  function BindEntry(config: Config, m: Manifest, digest: Option<DirectoryDigest>, bytes: Bytes):
    (r: Option<FailureReason>)
    ensures r.None? <==> Bound(config, m, bytes, digest)
  {
    var relative := Paths.SlashPath(m.entry);
    if digest.None? then None
    else if !digest.value.Covers(relative) then Some(UncoveredFile)
    else if !digest.value.Matches(relative, bytes, config.sha) then Some(FailureReason.DigestMismatch)
    else None
  }

  /**
   * How an entry may be spelled: over files keyed by clean paths, it is bound to the file its path
   * leads to, except that a path with a leading dot, though it leads there too, is never covered.
   */
  lemma BoundIff(config: Config, m: Manifest, bytes: Bytes, digest: DirectoryDigest)
    requires Packages.Relative(m.entry).Some? && forall p <- digest.files :: Packages.Clean(p)
    ensures Bound(config, m, bytes, Some(digest)) <==>
      && Texts.Split(m.entry, '/')[0] != "."
      && digest.Matches(Packages.Relative(m.entry).value, bytes, config.sha)
  {
    Packages.EntryKey(m.entry);
    var relative := Packages.Relative(m.entry).value;
    DotIsUnclean(relative);
    assert Paths.SlashPath(m.entry) in digest.files ==> Packages.Clean(Paths.SlashPath(m.entry));
  }

  lemma DotIsUnclean(relative: string)
    ensures !Packages.Clean("./" + relative)
  {
    var path := "./" + relative;
    Texts.SplitAfter(".", relative, '/');
    assert path == "." + ['/'] + relative;
    forall parts: seq<string> | parts != [] && forall part <- parts :: Packages.ProperName(part)
      ensures path != Texts.Join(parts, '/')
    {
      Texts.SplitJoin(parts, '/');
      assert parts[0] in parts;
    }
  }

  // ---------------------------------------------------------------- failures as they accumulate

  /** The failures so far, and the names among them. */
  datatype Tally = Tally(failures: seq<LoadFailure>, failed: set<string>) {
    ghost predicate Valid() {
      failed == Members(FailureNames(failures))
    }

    function Record(name: string, dir: string, reason: FailureReason): Tally {
      Tally(failures + [LoadFailure(name, dir, reason)], failed + {name})
    }

    lemma Recorded(name: string, dir: string, reason: FailureReason)
      requires Valid()
      ensures Record(name, dir, reason).Valid()
      ensures FailureNames(Record(name, dir, reason).failures) == FailureNames(failures) + [name]
    {
      var names := FailureNames(Record(name, dir, reason).failures);
      assert names == FailureNames(failures) + [name];
      assert Members(names) == Members(FailureNames(failures)) + {name};
    }
  }

  function ItemNames(items: seq<ReadyItem>): (names: seq<string>)
    ensures |names| == |items|
    ensures forall i :: 0 <= i < |items| ==> names[i] == items[i].manifest.name
  {
    seq(|items|, i requires 0 <= i < |items| => items[i].manifest.name)
  }

  function OutcomeNames(outcomes: seq<Outcome>): (names: seq<string>)
    ensures |names| == |outcomes|
    ensures forall i :: 0 <= i < |outcomes| ==> names[i] == outcomes[i].name
  {
    seq(|outcomes|, i requires 0 <= i < |outcomes| => outcomes[i].name)
  }

  /** The first required dependency that already failed. */
  function Unmet(deps: seq<Dependency>, failed: set<string>): (r: Option<string>)
    ensures r.Some? ==> r.value in failed && exists k :: 0 <= k < |deps| && FirstUnmet(deps, failed, k, r.value)
    ensures r.None? ==> forall d <- deps :: d.optional || d.name !in failed
  {
    if deps == [] then None
    else if !deps[0].optional && deps[0].name in failed then
      assert FirstUnmet(deps, failed, 0, deps[0].name);
      Some(deps[0].name)
    else
      var rest := Unmet(deps[1..], failed);
      assert deps == [deps[0]] + deps[1..];
      assert forall k, x :: 0 <= k < |deps| - 1 && FirstUnmet(deps[1..], failed, k, x) ==>
          FirstUnmet(deps, failed, k + 1, x);
      rest
  }

  ghost predicate FirstUnmet(deps: seq<Dependency>, failed: set<string>, k: nat, x: string)
    requires k < |deps|
  {
    && !deps[k].optional && deps[k].name == x && x in failed
    && forall j :: 0 <= j < k ==> deps[j].optional || deps[j].name !in failed
  }

  // ---------------------------------------------------------------- screening

  /** Everything known of an item before a backend sees it. */
  ghost predicate Vetted(config: Config, list: Revocations, taken: set<string>, item: ReadyItem) {
    && item.manifest.name !in taken
    && Cleared(config, list, item.manifest, item.signer, item.digest)
    && Bound(config, item.manifest, item.entryBytes, item.digest)
  }

  /** The item is what this call finds on disk for its manifest. */
  ghost predicate FoundItem(config: Config, list: Revocations, disk: Disk, item: ReadyItem) {
    && Found(config, list, disk.files(item.manifest.dir), disk.signature(item.manifest.dir), item.signer, item.digest)
    && disk.entry(item.manifest) == Some(item.entryBytes)
  }

  /** None of the plugin's required dependencies has failed. */
  ghost predicate Unblocked(m: Manifest, failed: set<string>) {
    forall d <- m.dependencies :: d.optional || d.name !in failed
  }

  /** Nothing stands in the way of handing the plugin to its backend. */
  ghost predicate Admissible(config: Config, list: Revocations, taken: set<string>, failed: set<string>, disk: Disk,
                             m: Manifest)
  {
    && Unblocked(m, failed) && RocksMet(m.rocks, disk.installed)
    && exists item: ReadyItem ::
         item.manifest == m && FoundItem(config, list, disk, item) && Vetted(config, list, taken, item)
  }

  /** Under a list with entries, nothing is admissible whose files, as this call finds them, an entry denotes. */
  lemma AdmissibleIsUndenied(config: Config, list: seq<Revocation>, taken: set<string>, failed: set<string>, disk: Disk,
                             m: Manifest)
    requires Admissible(config, Some(list), taken, failed, disk, m) && list != []
    ensures forall e <- disk.files(m.dir) :: !Unreadable(e)
    ensures forall entry <- list ::
      entry.digest.Some? ==> !Denotes(entry.digest.value, DigestNow(config, disk.files(m.dir)).root)
  {
    hide Found, Cleared, Bound, RocksMet;
    var item: ReadyItem :| item.manifest == m && FoundItem(config, Some(list), disk, item) &&
      Vetted(config, Some(list), taken, item);
    FoundIsUndenied(config, list, m, disk.files(m.dir), disk.signature(m.dir), item.signer, item.digest);
  }

  /** The reason a plugin that is not admissible is refused for: the first check it fails. */
  ghost function Obstacle(config: Config, list: Revocations, taken: set<string>, failed: set<string>, disk: Disk,
                          m: Manifest): FailureReason
  {
    var unmet := Unmet(m.dependencies, failed);
    if m.name in taken then AlreadyRegistered
    else if unmet.Some? then DependencyFailed(unmet.value)
    else if !RocksMet(m.rocks, disk.installed) then FailureReason.Rocks
    else Refusal(config, list, disk, m)
  }

  /** A plugin becomes ready exactly when nothing stands in its way, and then as it was found. */
  method Examine(config: Config, list: Revocations, taken: set<string>, m: Manifest, failed: set<string>, disk: Disk)
    returns (r: Result<ReadyItem, FailureReason>)
    ensures r.Ok? <==> Admissible(config, list, taken, failed, disk, m)
    ensures r.Ok? ==>
      r.value.manifest == m && Vetted(config, list, taken, r.value) && FoundItem(config, list, disk, r.value)
    ensures r.Err? ==> r.error == Obstacle(config, list, taken, failed, disk, m)
  {
    if m.name in taken {
      return Err(AlreadyRegistered);
    }
    var unmet := Unmet(m.dependencies, failed);
    if unmet.Some? {
      return Err(DependencyFailed(unmet.value));
    }
    var rocks := VerifyRocks(m.rocks, disk.installed);
    if !rocks {
      return Err(FailureReason.Rocks);
    }
    hide Found, Cleared, RocksMet, Bound, Refusal;
    r := Reexamine(config, list, m, disk);
    assert forall item: ReadyItem :: item.manifest == m ==>
      (Vetted(config, list, taken, item) <==> Vetted(config, list, {}, item));
  }

  /** What is found on disk is one signer and one digest. */
  lemma FoundOnce(config: Config, list: Revocations, m: Manifest, disk: Disk, signer: Signer,
                  digest: Option<DirectoryDigest>)
    requires Found(config, list, disk.files(m.dir), disk.signature(m.dir), signer, digest) &&
      Cleared(config, list, m, signer, digest)
    ensures forall s, d ::
      Found(config, list, disk.files(m.dir), disk.signature(m.dir), s, d) && Cleared(config, list, m, s, d) ==>
        s == signer && d == digest
  {
  }

  /** Verifies, reads and binds one manifest, whatever else is loaded and whatever it depends on. */
  method Reexamine(config: Config, list: Revocations, m: Manifest, disk: Disk)
    returns (r: Result<ReadyItem, FailureReason>)
    ensures r.Ok? ==>
      r.value.manifest == m && Vetted(config, list, {}, r.value) && FoundItem(config, list, disk, r.value)
    ensures forall item: ReadyItem ::
      item.manifest == m && FoundItem(config, list, disk, item) && Vetted(config, list, {}, item) ==> r == Ok(item)
    ensures r.Err? ==> r.error == Refusal(config, list, disk, m)
  {
    hide Found, Cleared, Refusal;
    var verified := VerifyPlugin(config, list, m, disk);
    if verified.Err? {
      return Err(verified.error);
    }
    var entry := disk.entry(m);
    if entry.None? {
      return Err(FailureReason.Io);
    }
    FoundOnce(config, list, m, disk, verified.value.0, verified.value.1);
    var bound := BindEntry(config, m, verified.value.1, entry.value);
    if bound.Some? {
      return Err(bound.value);
    }
    r := Ok(ReadyItem(m, entry.value, verified.value.0, verified.value.1));
  }

  function ItemManifests(items: seq<ReadyItem>): (r: seq<Manifest>)
    ensures |r| == |items|
  {
    seq(|items|, i requires 0 <= i < |items| => items[i].manifest)
  }

  /** The manifests among the first `k` that become ready, and the failures by then, each for its own reason. */
  ghost function PassedUpTo(config: Config, list: Revocations, taken: set<string>, disk: Disk, sorted: seq<Manifest>,
                            before: Tally, k: nat): (seq<Manifest>, Tally)
    requires k <= |sorted|
  {
    if k == 0 then ([], before)
    else
      var (passed, now) := PassedUpTo(config, list, taken, disk, sorted, before, k - 1);
      var m := sorted[k - 1];
      if Admissible(config, list, taken, now.failed, disk, m) then (passed + [m], now)
      else (passed, now.Record(m.name, m.dir, Obstacle(config, list, taken, now.failed, disk, m)))
  }

  /** Every manifest of `sorted` is either ready or among the failures, once. */
  ghost predicate Screened(config: Config, list: Revocations, taken: set<string>, sorted: seq<Manifest>,
                           before: Tally, ready: seq<ReadyItem>, after: Tally)
  {
    && after.Valid() && before.failures <= after.failures
    && (forall item <- ready :: Vetted(config, list, taken, item))
    && multiset(ItemNames(ready)) + multiset(FailureNames(after.failures))
      == multiset(Manifests.Names(sorted)) + multiset(FailureNames(before.failures))
  }

  lemma OneMore<T>(a: multiset<T>, b: multiset<T>, total: multiset<T>, x: T)
    requires a + b == total
    ensures (a + multiset{x}) + b == total + multiset{x} == a + (b + multiset{x})
  {
  }

  lemma ScreenedOn(config: Config, list: Revocations, taken: set<string>, sorted: seq<Manifest>, k: nat,
                   before: Tally, ready: seq<ReadyItem>, after: Tally, r: Result<ReadyItem, FailureReason>)
    requires k < |sorted| && Screened(config, list, taken, sorted[..k], before, ready, after)
    requires r.Ok? ==> r.value.manifest == sorted[k] && Vetted(config, list, taken, r.value)
    ensures r.Ok? ==> Screened(config, list, taken, sorted[..k + 1], before, ready + [r.value], after)
    ensures r.Err? ==>
      Screened(config, list, taken, sorted[..k + 1], before, ready,
        after.Record(sorted[k].name, sorted[k].dir, r.error))
  {
    var m := sorted[k];
    var names, first := Manifests.Names(sorted[..k]), multiset(FailureNames(before.failures));
    assert Manifests.Names(sorted[..k + 1]) == names + [m.name];
    OneMore(multiset(ItemNames(ready)), multiset(FailureNames(after.failures)), multiset(names) + first, m.name);
    OneMore(multiset(names), first, multiset(names) + first, m.name);
    match r
    case Ok(item) =>
      assert ItemNames(ready + [item]) == ItemNames(ready) + [m.name];
    case Err(reason) =>
      after.Recorded(m.name, m.dir, reason);
  }

  lemma PassedOn(config: Config, list: Revocations, taken: set<string>, disk: Disk, sorted: seq<Manifest>,
                 before: Tally, k: nat, ready: seq<ReadyItem>, after: Tally, r: Result<ReadyItem, FailureReason>)
    requires k < |sorted|
    requires (ItemManifests(ready), after) == PassedUpTo(config, list, taken, disk, sorted, before, k)
    requires r.Ok? <==> Admissible(config, list, taken, after.failed, disk, sorted[k])
    requires r.Ok? ==> r.value.manifest == sorted[k]
    requires r.Err? ==> r.error == Obstacle(config, list, taken, after.failed, disk, sorted[k])
    ensures PassedUpTo(config, list, taken, disk, sorted, before, k + 1) ==
      match r
      case Ok(item) => (ItemManifests(ready + [item]), after)
      case Err(reason) => (ItemManifests(ready), after.Record(sorted[k].name, sorted[k].dir, reason))
  {
    hide Admissible, Obstacle;
    if r.Ok? {
      assert ItemManifests(ready + [r.value]) == ItemManifests(ready) + [sorted[k]];
    }
  }

  /** Verifies each manifest in load order, keeping what is loadable. */
  method Screen(config: Config, list: Revocations, taken: set<string>, sorted: seq<Manifest>, before: Tally, disk: Disk)
    returns (ready: seq<ReadyItem>, after: Tally)
    requires before.Valid()
    ensures Screened(config, list, taken, sorted, before, ready, after)
    ensures (ItemManifests(ready), after) == PassedUpTo(config, list, taken, disk, sorted, before, |sorted|)
    ensures forall item <- ready :: FoundItem(config, list, disk, item)
  {
    ready, after := [], before;
    assert Screened(config, list, taken, sorted[..0], before, ready, after);
    hide Screened, Vetted, Admissible, FoundItem, Obstacle;
    for k := 0 to |sorted|
      invariant Screened(config, list, taken, sorted[..k], before, ready, after)
      invariant (ItemManifests(ready), after) == PassedUpTo(config, list, taken, disk, sorted, before, k)
      invariant forall item <- ready :: FoundItem(config, list, disk, item)
    {
      hide PassedUpTo;
      var r := Examine(config, list, taken, sorted[k], after.failed, disk);
      ScreenedOn(config, list, taken, sorted, k, before, ready, after, r);
      PassedOn(config, list, taken, disk, sorted, before, k, ready, after, r);
      match r
      case Ok(item) => ready := ready + [item];
      case Err(reason) => after := after.Record(sorted[k].name, sorted[k].dir, reason);
    }
    assert sorted[..|sorted|] == sorted;
  }

  /** The ready items of one plugin type, in load order. */
  function OfType(ready: seq<ReadyItem>, ty: PluginType): (members: seq<ReadyItem>)
    ensures forall item <- members :: item in ready && item.manifest.pluginType == ty
  {
    if ready == [] then []
    else
      var last := |ready| - 1;
      if ready[last].manifest.pluginType == ty then OfType(ready[..last], ty) + [ready[last]]
      else OfType(ready[..last], ty)
  }

  lemma OfTypeLast(ready: seq<ReadyItem>)
    requires ready != []
    ensures var last := |ready| - 1;
      var (rest, ty) := (ready[..last], ready[last].manifest.pluginType);
      && OfType(ready, ty) == OfType(rest, ty) + [ready[last]]
      && forall other: PluginType :: other != ty ==> OfType(ready, other) == OfType(rest, other)
  {
  }

  lemma {:induction false} GroupsPartition(ready: seq<ReadyItem>)
    ensures multiset(ItemNames(OfType(ready, Lua))) + multiset(ItemNames(OfType(ready, Wasm))) ==
      multiset(ItemNames(ready))
  {
    if ready != [] {
      var last := |ready| - 1;
      var rest, name, ty := ready[..last], ready[last].manifest.name, ready[last].manifest.pluginType;
      GroupsPartition(rest);
      OfTypeLast(ready);
      hide OfType;
      OneMore(multiset(ItemNames(OfType(rest, Lua))), multiset(ItemNames(OfType(rest, Wasm))),
        multiset(ItemNames(rest)), name);
      assert ItemNames(ready) == ItemNames(rest) + [name];
      assert ItemNames(OfType(rest, ty) + [ready[last]]) == ItemNames(OfType(rest, ty)) + [name];
    }
  }

  // ---------------------------------------------------------------- what a backend may answer

  ghost predicate Honest(outcome: Outcome, item: ReadyItem, config: Config) {
    outcome.Loaded? ==>
      outcome.instance.source == item.entryBytes && outcome.granted == ApprovedNames(config, item.manifest, item.signer)
  }

  /** Each name at most once, and a plugin it loaded was built from its bytes with its approved grants. */
  ghost predicate Faithful(outcomes: seq<Outcome>, items: seq<ReadyItem>, config: Config) {
    && Distinct(OutcomeNames(outcomes))
    && forall i, k :: 0 <= i < |outcomes| && 0 <= k < |items| && outcomes[i].name == items[k].manifest.name ==>
        Honest(outcomes[i], items[k], config)
  }

  /** Backends answer faithfully for groups without a repeated name, the only ones they are handed. */
  ghost predicate FaithfulBackends(backends: Backends, config: Config) {
    forall ty, items :: ty in backends && Distinct(ItemNames(items)) ==>
      Faithful(backends[ty].load(items), items, config)
  }

  /** No backend reports on a plugin it was not handed. */
  ghost predicate Confined(backends: Backends) {
    forall ty, items, x :: ty in backends && x in OutcomeNames(backends[ty].load(items)) ==> x in ItemNames(items)
  }

  /** One outcome per plugin handed over, in order, each granting what was approved. */
  ghost predicate AnswersEach(outcomes: seq<Outcome>, items: seq<ReadyItem>, config: Config) {
    && OutcomeNames(outcomes) == ItemNames(items)
    && forall i :: 0 <= i < |items| ==> Honest(outcomes[i], items[i], config)
  }

  /** How both runtimes answer, whatever they are handed. */
  ghost predicate OneEach(backend: Backend, config: Config) {
    forall items :: AnswersEach(backend.load(items), items, config)
  }

  /** A backend that answers once for each plugin does all that is asked of one. */
  lemma OneEachIsFaithful(backends: Backends, config: Config)
    requires forall ty <- backends :: OneEach(backends[ty], config)
    ensures FaithfulBackends(backends, config) && Confined(backends)
  {
    forall ty, items: seq<ReadyItem> | ty in backends && Distinct(ItemNames(items))
      ensures Faithful(backends[ty].load(items), items, config)
    {
      EachAnsweredOnce(backends[ty].load(items), items, config);
    }
    forall ty, items: seq<ReadyItem>, x | ty in backends && x in OutcomeNames(backends[ty].load(items))
      ensures x in ItemNames(items)
    {
      assert AnswersEach(backends[ty].load(items), items, config);
    }
  }

  lemma EachAnsweredOnce(outcomes: seq<Outcome>, items: seq<ReadyItem>, config: Config)
    requires AnswersEach(outcomes, items, config) && Distinct(ItemNames(items))
    ensures Faithful(outcomes, items, config)
  {
    hide Honest;
    var names := ItemNames(items);
    forall i, k | 0 <= i < |outcomes| && 0 <= k < |items| && outcomes[i].name == items[k].manifest.name
      ensures Honest(outcomes[i], items[k], config)
    {
      assert names[i] == names[k];
    }
  }

  ghost predicate FaithfulReload(answer: ReadyItem -> Option<Reloaded>, config: Config) {
    forall item :: answer(item).Some? ==>
      answer(item).value.instance.source == item.entryBytes &&
      answer(item).value.granted == ApprovedNames(config, item.manifest, item.signer)
  }

  // ---------------------------------------------------------------- the sweep

  /** The names given that are not `gone`, in order. */
  function Left(names: seq<string>, gone: set<string>): (r: seq<string>)
    ensures forall x :: x in r <==> x in names && x !in gone
  {
    if names == [] then []
    else
      var last := |names| - 1;
      assert names == names[..last] + [names[last]];
      if names[last] in gone then Left(names[..last], gone) else Left(names[..last], gone) + [names[last]]
  }

  lemma {:induction false} LeftDistinct(names: seq<string>, gone: set<string>)
    requires Distinct(names)
    ensures Distinct(Left(names, gone))
  {
    if names != [] {
      var last := |names| - 1;
      LeftDistinct(names[..last], gone);
      assert names[last] !in Left(names[..last], gone);
    }
  }

  ghost predicate SweptTo(names: seq<string>, gone: set<string>, before: Tally, after: Tally) {
    && after.Valid() && before.failures <= after.failures
    && FailureNames(after.failures) == FailureNames(before.failures) + Left(names, gone)
  }

  lemma SweptOn(names: seq<string>, k: nat, loaded: set<string>, before: Tally, after: Tally, dir: string,
                reason: FailureReason)
    requires k < |names| && Distinct(names) && before.Valid()
    requires SweptTo(names[..k], before.failed + loaded, before, after)
    ensures names[k] in after.failed || names[k] in loaded ==>
      SweptTo(names[..k + 1], before.failed + loaded, before, after)
    ensures !(names[k] in after.failed || names[k] in loaded) ==>
      SweptTo(names[..k + 1], before.failed + loaded, before, after.Record(names[k], dir, reason))
  {
    var gone := before.failed + loaded;
    assert names[..k + 1][..k] == names[..k] && names[..k + 1][k] == names[k];
    assert names[k] !in names[..k];
    assert names[k] in after.failed <==> names[k] in before.failed by {
      assert names[k] in FailureNames(after.failures) <==> names[k] in FailureNames(before.failures);
    }
    after.Recorded(names[k], dir, reason);
  }

  /** Every ready plugin that neither failed nor loaded joins the failures: for a dependency, or for no answer. */
  ghost function SweptFrom(ready: seq<ReadyItem>, loaded: set<string>, before: Tally, k: nat): Tally
    requires k <= |ready|
  {
    if k == 0 then before
    else
      var now, m := SweptFrom(ready, loaded, before, k - 1), ready[k - 1].manifest;
      if m.name in now.failed || m.name in loaded then now
      else now.Record(m.name, m.dir, Silence(m, now.failed))
  }

  /** Why a plugin no backend answered for is not loaded. */
  function Silence(m: Manifest, failed: set<string>): FailureReason {
    var unmet := Unmet(m.dependencies, failed);
    if unmet.Some? then DependencyFailed(unmet.value) else FailureReason.Runtime
  }

  /** Reports every ready plugin that neither failed nor loaded: a backend left it out. */
  method Sweep(ready: seq<ReadyItem>, loaded: set<string>, before: Tally) returns (after: Tally)
    requires before.Valid() && Distinct(ItemNames(ready))
    ensures SweptTo(ItemNames(ready), before.failed + loaded, before, after)
    ensures after == SweptFrom(ready, loaded, before, |ready|) && before.failures <= after.failures
  {
    after := before;
    ghost var names := ItemNames(ready);
    for k := 0 to |ready|
      invariant SweptTo(names[..k], before.failed + loaded, before, after)
      invariant after == SweptFrom(ready, loaded, before, k)
    {
      hide SweptTo;
      var m := ready[k].manifest;
      var reason := Silence(m, after.failed);
      SweptOn(names, k, loaded, before, after, m.dir, reason);
      if m.name !in after.failed && m.name !in loaded {
        after := after.Record(m.name, m.dir, reason);
      }
    }
    assert names[..|names|] == names;
  }

  // ---------------------------------------------------------------- accounting

  /** The report names every plugin found, readable or not, exactly as often as it was found. */
  ghost predicate Conserved(report: LoadReport, found: seq<Manifest>, unreadable: seq<LoadFailure>) {
    multiset(report.loaded) + multiset(FailureNames(report.failures))
      == multiset(Manifests.Names(found)) + multiset(FailureNames(unreadable))
  }

  /** What `resolve_order` hands on accounts for the manifests exactly when no passing name repeats. */
  lemma OrderConserves(found: seq<Manifest>, sorted: seq<Manifest>, failures: seq<LoadFailure>)
    requires Resolution.Accounted(found, sorted, failures)
    ensures |sorted| + |failures| <= |found|
    ensures |sorted| + |failures| == |found| <==> Distinct(Manifests.Names(Resolution.Passing(found)))
    ensures Distinct(Manifests.Names(Resolution.Passing(found))) ==>
      multiset(Manifests.Names(sorted)) + multiset(FailureNames(failures)) == multiset(Manifests.Names(found))
    ensures Distinct(Manifests.Names(sorted))
  {
    var refused, held := Resolution.Refused(found), Resolution.Held(found, failures);
    var names := Manifests.Names(Resolution.Passing(found));
    assert FailureNames(failures) == FailureNames(refused) + FailureNames(held);
    hide Resolution.Passing, Resolution.Refused;
    PassingOrRefused(found);
    NamesConserve(Manifests.Names(found), names, FailureNames(refused), Manifests.Names(sorted), FailureNames(held));
  }

  /** All names split into passing and refused ones, and the passing ones kept once each, sorted or held. */
  lemma NamesConserve(all: seq<string>, passing: seq<string>, refused: seq<string>, sorted: seq<string>,
                      held: seq<string>)
    requires multiset(passing) + multiset(refused) == multiset(all)
    requires Distinct(sorted + held) && forall x :: x in sorted + held <==> x in passing
    ensures |sorted| + |refused + held| <= |all|
    ensures |sorted| + |refused + held| == |all| <==> Distinct(passing)
    ensures Distinct(passing) ==> multiset(sorted) + multiset(refused + held) == multiset(all)
    ensures Distinct(sorted)
  {
    SplitSize(passing, refused, all);
    MemberCount(sorted + held);
    MemberCount(passing);
    assert Members(sorted + held) == Members(passing);
    DistinctPrefix(sorted, held);
    if Distinct(passing) {
      Resolution.SameMultiset(sorted + held, passing);
      Resolution.CancelMultiset(multiset(sorted), multiset(held), multiset(refused), multiset(passing));
    }
  }

  lemma PassingOrRefused(ms: seq<Manifest>)
    ensures multiset(Manifests.Names(Resolution.Passing(ms))) + multiset(FailureNames(Resolution.Refused(ms)))
      == multiset(Manifests.Names(ms))
  {
    CheckConservesNames(ms, Resolution.Versions(ms), |ms|);
    assert ms[..|ms|] == ms;
  }

  lemma SplitSize<T>(a: seq<T>, b: seq<T>, c: seq<T>)
    requires multiset(a) + multiset(b) == multiset(c)
    ensures |a| + |b| == |c|
  {
    assert |multiset(a)| + |multiset(b)| == |multiset(c)|;
  }

  lemma DistinctPrefix<T>(a: seq<T>, b: seq<T>)
    requires Distinct(a + b)
    ensures Distinct(a) && forall x :: x in a ==> x !in b
  {
    var s := a + b;
    forall i, j | 0 <= i < j < |a| ensures a[i] != a[j] {
      assert s[i] != s[j];
    }
    forall x | x in a ensures x !in b {
      var i :| 0 <= i < |a| && a[i] == x;
      forall j | 0 <= j < |b| ensures b[j] != x {
        assert s[i] != s[|a| + j];
      }
    }
  }

  /** These two lists of names make up the names of all these manifests. */
  ghost predicate MakeUp(passed: seq<Manifest>, refused: seq<LoadFailure>, all: seq<Manifest>) {
    multiset(Manifests.Names(passed)) + multiset(FailureNames(refused)) == multiset(Manifests.Names(all))
  }

  lemma {:induction false} CheckConservesNames(ms: seq<Manifest>, versions: map<string, Version>, k: nat)
    requires k <= |ms|
    ensures MakeUp(Resolution.PassingUpTo(ms, versions, k), Resolution.RefusedUpTo(ms, versions, k), ms[..k])
  {
    if k > 0 {
      hide MakeUp;
      var m := ms[k - 1];
      var passed, refused := Resolution.PassingUpTo(ms, versions, k - 1), Resolution.RefusedUpTo(ms, versions, k - 1);
      CheckConservesNames(ms, versions, k - 1);
      assert ms[..k] == ms[..k - 1] + [m];
      match Resolution.CheckDependencies(m.dependencies, versions) {
        case None => OnePassed(passed, refused, ms[..k - 1], m);
        case Some(reason) => OneRefused(passed, refused, ms[..k - 1], m, reason);
      }
    }
  }

  lemma OnePassed(passed: seq<Manifest>, refused: seq<LoadFailure>, all: seq<Manifest>, m: Manifest)
    requires MakeUp(passed, refused, all)
    ensures MakeUp(passed + [m], refused, all + [m])
  {
    assert Manifests.Names(passed + [m]) == Manifests.Names(passed) + [m.name];
    assert Manifests.Names(all + [m]) == Manifests.Names(all) + [m.name];
  }

  lemma OneRefused(passed: seq<Manifest>, refused: seq<LoadFailure>, all: seq<Manifest>, m: Manifest,
                   reason: FailureReason)
    requires MakeUp(passed, refused, all)
    ensures MakeUp(passed, refused + [LoadFailure(m.name, m.dir, reason)], all + [m])
  {
    assert FailureNames(refused + [LoadFailure(m.name, m.dir, reason)]) == FailureNames(refused) + [m.name];
    assert Manifests.Names(all + [m]) == Manifests.Names(all) + [m.name];
  }

  /** One load's bookkeeping, from screening to sweep, over names without repetition. */
  ghost predicate Handled(members: seq<ReadyItem>, handled: seq<string>) {
    Distinct(handled) && forall x <- handled :: x in ItemNames(members)
  }

  lemma {:induction false} SingleCounts<T>(s: seq<T>)
    requires forall x :: multiset(s)[x] <= 1
    ensures Distinct(s)
  {
    forall i, j | 0 <= i < j < |s| ensures s[i] != s[j] {
      assert s == s[..j] + s[j..];
      assert multiset(s)[s[j]] == multiset(s[..j])[s[j]] + multiset(s[j..])[s[j]];
      assert s[..j][i] in multiset(s[..j]) && s[j..][0] in multiset(s[j..]);
    }
  }

  lemma GroupsStandApart(ready: seq<ReadyItem>)
    requires Distinct(ItemNames(ready))
    ensures forall ty :: Distinct(ItemNames(OfType(ready, ty)))
    ensures forall x :: x in ItemNames(OfType(ready, Lua)) ==> x !in ItemNames(OfType(ready, Wasm))
    ensures forall x :: x in ItemNames(ready) <==>
      x in ItemNames(OfType(ready, Lua)) || x in ItemNames(OfType(ready, Wasm))
  {
    GroupsPartition(ready);
    DistinctMultiset(ItemNames(ready));
    NamesApart(ItemNames(ready), ItemNames(OfType(ready, Lua)), ItemNames(OfType(ready, Wasm)));
    forall ty: PluginType ensures Distinct(ItemNames(OfType(ready, ty))) {
      assert ty == Lua || ty == Wasm;
    }
  }

  lemma NamesApart(all: seq<string>, lua: seq<string>, wasm: seq<string>)
    requires multiset(lua) + multiset(wasm) == multiset(all) && forall x :: multiset(all)[x] <= 1
    ensures Distinct(lua) && Distinct(wasm)
    ensures forall x :: x in all <==> x in lua || x in wasm
    ensures forall x :: x in lua ==> x !in wasm
  {
    forall x ensures multiset(lua)[x] + multiset(wasm)[x] == multiset(all)[x] {
      assert (multiset(lua) + multiset(wasm))[x] == multiset(all)[x];
    }
    SingleCounts(lua);
    SingleCounts(wasm);
    forall x ensures x in all <==> x in lua || x in wasm {
      assert (x in multiset(all)) <==> (x in multiset(lua) || x in multiset(wasm));
    }
    forall x | x in lua ensures x !in wasm {
      assert x in multiset(lua);
    }
  }

  /** The names that were not handled and that the sweep takes for gone already. */
  ghost function Unswept(names: seq<string>, handled: set<string>, gone: set<string>): set<string> {
    Members(names) - handled - (Members(names) - gone)
  }

  /** The names one type's plugins are reported under: all of them when there is no backend to ask. */
  function Reported(backends: Backends, members: seq<ReadyItem>, ty: PluginType): seq<string> {
    if members == [] then []
    else if ty !in backends then ItemNames(members)
    else OutcomeNames(backends[ty].load(members))
  }

  /** The ready plugins no backend reports on although a failure of their name was there before screening. */
  ghost function Dropped(backends: Backends, ready: seq<ReadyItem>, first: seq<LoadFailure>): set<string> {
    Members(ItemNames(ready)) * Members(FailureNames(first))
      - Members(Reported(backends, OfType(ready, Lua), Lua)) - Members(Reported(backends, OfType(ready, Wasm), Wasm))
  }

  lemma ReadySplit(names: seq<string>, a: seq<string>, b: seq<string>, gone: set<string>)
    requires Distinct(names) && Distinct(a) && Distinct(b)
    requires forall x :: x in a ==> x in names && x in gone && x !in b
    requires forall x :: x in b ==> x in names && x in gone
    ensures multiset(names) ==
      multiset(a) + multiset(b) + multiset(Left(names, gone)) + multiset(Unswept(names, Members(a) + Members(b), gone))
  {
    var left, dropped := Left(names, gone), Unswept(names, Members(a) + Members(b), gone);
    LeftDistinct(names, gone);
    hide Distinct, Left;
    forall x ensures multiset(names)[x] == multiset(a)[x] + multiset(b)[x] + multiset(left)[x] + multiset(dropped)[x] {
      CountOf(names, x);
      CountOf(a, x);
      CountOf(b, x);
      CountOf(left, x);
    }
  }

  lemma CountOf<T>(s: seq<T>, x: T)
    requires Distinct(s)
    ensures multiset(s)[x] == if x in s then 1 else 0
  {
    DistinctMultiset(s);
    assert x in s <==> x in multiset(s);
  }

  lemma {:induction false} PassingDistinct(ms: seq<Manifest>)
    requires Distinct(Manifests.Names(ms))
    ensures Distinct(Manifests.Names(Resolution.Passing(ms)))
  {
    var passing := Manifests.Names(Resolution.Passing(ms));
    PassingOrRefused(ms);
    DistinctMultiset(Manifests.Names(ms));
    forall x ensures multiset(passing)[x] <= 1 {
      assert multiset(Manifests.Names(ms))[x] ==
        multiset(passing)[x] + multiset(FailureNames(Resolution.Refused(ms)))[x];
    }
    SingleCounts(passing);
  }

  /** With distinct manifest names, nothing `resolve_order` hands on is also among its failures. */
  lemma OrderedHaveNotFailed(found: seq<Manifest>, sorted: seq<Manifest>, failures: seq<LoadFailure>, x: string)
    requires Distinct(Manifests.Names(found)) && Resolution.Accounted(found, sorted, failures)
    requires x in Manifests.Names(sorted)
    ensures x !in FailureNames(failures)
  {
    var refused, held := Resolution.Refused(found), Resolution.Held(found, failures);
    hide Resolution.Refused, Resolution.Held, Resolution.Passing, Resolution.AllPassed;
    DistinctPrefix(Manifests.Names(sorted), FailureNames(held));
    assert x in Manifests.Names(sorted) + FailureNames(held);
    Resolution.PassingIsCounted(found, x);
    assert FailureNames(failures) == FailureNames(refused) + FailureNames(held);
    assert x !in Members(FailureNames(refused));
  }

  /**
   * The report of a load is conserved exactly when the order lost no manifest and the sweep
   * dropped none.
   */
  lemma LoadConserves(found: seq<Manifest>, unreadable: seq<LoadFailure>, sorted: seq<Manifest>,
                      orderFailures: seq<LoadFailure>, dropped: set<string>, report: LoadReport)
    requires Resolution.Accounted(found, sorted, orderFailures)
    requires multiset(report.loaded) + multiset(FailureNames(report.failures)) + multiset(dropped)
      == multiset(Manifests.Names(sorted)) + multiset(FailureNames(unreadable + orderFailures))
    ensures Conserved(report, found, unreadable) <==>
      Distinct(Manifests.Names(Resolution.Passing(found))) && dropped == {}
  {
    hide Resolution.Accounted;
    OrderConserves(found, sorted, orderFailures);
    var names, u, o := Manifests.Names(sorted), FailureNames(unreadable), FailureNames(orderFailures);
    var failed := FailureNames(report.failures);
    assert FailureNames(unreadable + orderFailures) == u + o;
    SizesAgree(report.loaded, failed, dropped, names, u + o);
    if Conserved(report, found, unreadable) {
      assert multiset(report.loaded) + multiset(failed) + multiset({}) ==
        multiset(Manifests.Names(found)) + multiset(u);
      SizesAgree(report.loaded, failed, {}, Manifests.Names(found), u);
    } else if Distinct(Manifests.Names(Resolution.Passing(found))) && dropped == {} {
      Rearranged(report.loaded, failed, names, u, o, Manifests.Names(found));
    }
  }

  lemma SizesAgree<T>(a: seq<T>, b: seq<T>, c: set<T>, d: seq<T>, e: seq<T>)
    requires multiset(a) + multiset(b) + multiset(c) == multiset(d) + multiset(e)
    ensures |a| + |b| + |c| == |d| + |e|
  {
    assert |multiset(a) + multiset(b) + multiset(c)| == |multiset(d) + multiset(e)|;
  }

  lemma Rearranged<T>(a: seq<T>, b: seq<T>, d: seq<T>, u: seq<T>, o: seq<T>, all: seq<T>)
    requires multiset(a) + multiset(b) + multiset{} == multiset(d) + multiset(u + o)
    requires multiset(d) + multiset(o) == multiset(all)
    ensures multiset(a) + multiset(b) == multiset(all) + multiset(u)
  {
    forall x ensures (multiset(a) + multiset(b))[x] == (multiset(all) + multiset(u))[x] {
      assert multiset(u + o)[x] == multiset(u)[x] + multiset(o)[x];
      assert (multiset(d) + multiset(o))[x] == multiset(all)[x];
      assert (multiset(a) + multiset(b) + multiset{})[x] == (multiset(d) + multiset(u + o))[x];
    }
  }
}
