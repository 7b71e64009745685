/** The lockfile: which build of each plugin a host accepts. */
module Locks {
  import opened Wrappers
  import opened Manifests
  import opened Signatures

  /** One pinned build. Only the digest has to be there; the rest narrows what is accepted. */
  datatype LockedPlugin = LockedPlugin(
    digest: string, version: Option<Version>, signer: Option<string>, issuer: Option<string>, source: Option<string>)
  {
    /** The pinned digest as bare hex, without the prefix. */
    function PinnedHex(): string {
      StripPrefix(digest)
    }
  }

  /** Accepts a bare hex digest as well as the prefixed form, and lowercases both. */
  function NormalizeDigest(digest: string): string {
    SHA256_PREFIX + BareDigest(digest)
  }

  function Pin(digest: string): LockedPlugin {
    LockedPlugin(NormalizeDigest(digest), None, None, None, None)
  }

  /** Pins the build a directory currently holds. */
  function PinOf(digest: DirectoryDigest): LockedPlugin {
    Pin(SHA256_PREFIX + Hex(digest.root))
  }

  type Lockfile = map<string, LockedPlugin>

  datatype LockError =
    | Unlocked(name: string)
    | DigestMismatch(name: string)
    | SignerMismatch(name: string)
    | VersionMismatch(name: string)

  predicate SameHex(a: string, b: string) {
    Lower(a) == Lower(b)
  }

  /** Checks a plugin's bytes and signer against its pin. */
  function Check(lock: Lockfile, m: Manifest, digest: DirectoryDigest, signer: Signer): Option<LockError> {
    if m.name !in lock then Some(Unlocked(m.name))
    else
      var entry := lock[m.name];
      if !SameHex(entry.PinnedHex(), Hex(digest.root)) then Some(DigestMismatch(m.name))
      else if entry.signer.Some? && signer.Identity() != entry.signer then Some(SignerMismatch(m.name))
      else if entry.issuer.Some? && signer.Issuer() != entry.issuer then Some(SignerMismatch(m.name))
      else if entry.version.Some? && entry.version.value != m.EffectiveVersion() then Some(VersionMismatch(m.name))
      else None
  }

  /** A pinned digest spells the hash in hex of either case, with or without the prefix. */
  ghost predicate PinSpells(text: string, h: Hash) {
    exists hex :: HexOf(hex, h) && (text == hex || text == "sha256:" + hex)
  }

  /** The pin is of this build, and whatever else it names is so too. */
  ghost predicate Allows(pin: LockedPlugin, m: Manifest, digest: DirectoryDigest, signer: Signer) {
    && PinSpells(pin.digest, digest.root)
    && (pin.signer.Some? ==> signer.Verified? && signer.identity == pin.signer.value)
    && (pin.issuer.Some? ==> signer.Verified? && signer.issuer == pin.issuer)
    && (pin.version.Some? ==> HasVersion(m, pin.version.value))
  }

  lemma PinSpellsIff(pin: LockedPlugin, h: Hash)
    ensures PinSpells(pin.digest, h) <==> SameHex(pin.PinnedHex(), Hex(h))
  {
    var text, hex := pin.digest, pin.PinnedHex();
    BareDigestOfHex(h);
    HexReadsBack(hex, h);
    if PinSpells(text, h) {
      var spelled :| HexOf(spelled, h) && (text == spelled || text == "sha256:" + spelled);
      HexReadsBack(spelled, h);
      HexIsTrimmed(spelled, h);
      assert ("sha256:" + spelled)[|SHA256_PREFIX|..] == spelled;
    } else if text != hex {
      assert text == text[..7] + text[7..] && text[..7] == "sha256:";
    }
  }

  /**
   * A plugin passes the lockfile exactly when it is pinned and the pin allows it; it is refused for
   * the first thing that differs.
   */
  lemma CheckIff(lock: Lockfile, m: Manifest, digest: DirectoryDigest, signer: Signer)
    ensures Check(lock, m, digest, signer).None? <==> m.name in lock && Allows(lock[m.name], m, digest, signer)
    ensures Check(lock, m, digest, signer) == Some(Unlocked(m.name)) <==> m.name !in lock
    ensures Check(lock, m, digest, signer) == Some(DigestMismatch(m.name)) <==>
      m.name in lock && !PinSpells(lock[m.name].digest, digest.root)
    ensures Check(lock, m, digest, signer) == Some(VersionMismatch(m.name)) <==>
      m.name in lock && !Allows(lock[m.name], m, digest, signer) &&
      Allows(lock[m.name].(version := None), m, digest, signer)
  {
    if m.name in lock {
      PinSpellsIff(lock[m.name], digest.root);
    }
    hide Hex, SameHex, PinSpells;
  }

  /** The pin taken of a build is its digest in lowercase with the prefix, and nothing else. */
  lemma PinIsItsDigest(d: DirectoryDigest)
    ensures exists hex ::
      HexOf(hex, d.root) && hex == Lower(hex) && PinOf(d) == LockedPlugin("sha256:" + hex, None, None, None, None)
  {
    BareDigestOfHex(d.root);
    HexReadsBack(Hex(d.root), d.root);
    assert PinOf(d) == LockedPlugin("sha256:" + Hex(d.root), None, None, None, None);
  }

  lemma PinnedHexOf(d: DirectoryDigest)
    ensures PinOf(d).PinnedHex() == Hex(d.root)
  {
    BareDigestOfHex(d.root);
    assert (SHA256_PREFIX + Hex(d.root))[|SHA256_PREFIX|..] == Hex(d.root);
  }

  /** A pin taken of one build accepts another exactly when the roots and whatever else it names agree. */
  lemma PinAcceptsIff(lock: Lockfile, m: Manifest, pinned: DirectoryDigest, found: DirectoryDigest, signer: Signer)
    requires m.name in lock && lock[m.name].digest == PinOf(pinned).digest
    ensures Check(lock, m, found, signer).None? <==>
      && found.root == pinned.root
      && (lock[m.name].signer.Some? ==> signer.Identity() == lock[m.name].signer)
      && (lock[m.name].issuer.Some? ==> signer.Issuer() == lock[m.name].issuer)
      && (lock[m.name].version.Some? ==> lock[m.name].version.value == m.EffectiveVersion())
  {
    PinnedHexOf(pinned);
    BareDigestOfHex(pinned.root);
    BareDigestOfHex(found.root);
    if Hex(pinned.root) == Hex(found.root) {
      HexInjective(pinned.root, found.root);
    }
  }

  /** Read off the two plugins: a pin taken of one accepts the other exactly when all it names agrees. */
  lemma PinAllowsIff(lock: Lockfile, m: Manifest, pinned: DirectoryDigest, found: DirectoryDigest, signer: Signer)
    requires m.name in lock && lock[m.name].digest == PinOf(pinned).digest
    ensures Check(lock, m, found, signer).None? <==>
      && found.root == pinned.root
      && (lock[m.name].signer.Some? ==> signer.Verified? && signer.identity == lock[m.name].signer.value)
      && (lock[m.name].issuer.Some? ==> signer.Verified? && signer.issuer == lock[m.name].issuer)
      && (lock[m.name].version.Some? ==> HasVersion(m, lock[m.name].version.value))
  {
    PinAcceptsIff(lock, m, pinned, found, signer);
    CheckIff(lock, m, found, signer);
    hide Check;
  }

  /**
   * A directory accepted under a pin covers the very files, with the very hashes, of the
   * directory that was pinned, or else the two preimages are a collision of the hash.
   */
  lemma PinIdentifiesContents(lock: Lockfile, m: Manifest, pinned: DirectoryDigest, found: DirectoryDigest,
                              signer: Signer, sha: HashFunction)
    requires pinned.Genuine(sha) && found.Genuine(sha)
    requires m.name in lock && lock[m.name].digest == PinOf(pinned).digest
    requires Check(lock, m, found, signer).None?
    ensures found.files == pinned.files ||
      (found.preimage != pinned.preimage && sha(found.preimage) == sha(pinned.preimage))
  {
    PinAcceptsIff(lock, m, pinned, found, signer);
    if found.preimage == pinned.preimage {
      PreimageInjective(found.files, pinned.files);
    }
  }
}
