/** Directory digests, signers and revocations. Text is its UTF-8 bytes, one `char` per byte. */
module Signatures {
  import opened Wrappers
  import opened Orders
  import opened Texts
  import opened Values

  type Bytes = seq<int>

  ghost predicate AreBytes(s: Bytes) {
    forall i :: 0 <= i < |s| ==> 0 <= s[i] < 256
  }

  type Hash = h: Bytes | |h| == 32 && forall i :: 0 <= i < 32 ==> 0 <= h[i] < 256
    witness seq(32, i => 0)

  /** The hash function: SHA-256, of which nothing is assumed but the width of its results. */
  type HashFunction = Bytes -> Hash

  // ---------------------------------------------------------------- the digest preimage

  datatype FileHash = FileHash(path: string, hash: Hash)

  /** `relative path, 0x00, sha256(contents), 0x00` for each file in turn. */
  ghost function Encode(files: seq<FileHash>): Bytes {
    if files == [] then []
    else EncodeOne(files[0]) + Encode(files[1..])
  }

  function EncodeOne(f: FileHash): Bytes {
    Codes(f.path) + [0] + f.hash + [0]
  }

  /** The bytes of one entry: the path, a zero, the 32 bytes of the hash, and another zero. */
  lemma EntryLaidOut(f: FileHash)
    ensures var bytes := EncodeOne(f);
      && |bytes| == |f.path| + 34
      && (forall i :: 0 <= i < |f.path| ==> bytes[i] == f.path[i] as int)
      && bytes[|f.path|] == 0 && bytes[|f.path| + 1..|f.path| + 33] == f.hash && bytes[|f.path| + 33] == 0
  {
  }

  ghost predicate NulFree(path: string) {
    forall i :: 0 <= i < |path| ==> path[i] as int != 0
  }

  lemma FirstEntryDecodes(f: FileHash, g: FileHash, x: Bytes, y: Bytes)
    requires NulFree(f.path) && NulFree(g.path)
    requires EncodeOne(f) + x == EncodeOne(g) + y
    ensures f == g && x == y
  {
    var a, b := EncodeOne(f) + x, EncodeOne(g) + y;
    assert a[|f.path|] == 0 && b[|g.path|] == 0;
    assert |f.path| == |g.path|;
    var n := |f.path|;
    forall i | 0 <= i < n ensures f.path[i] == g.path[i] {
      assert a[i] == Codes(f.path)[i] && b[i] == Codes(g.path)[i];
    }
    assert a[n + 1..n + 33] == f.hash && b[n + 1..n + 33] == g.hash;
    assert a[n + 34..] == x && b[n + 34..] == y;
  }

  /** The encoding is unambiguous: equal bytes come from equal lists of files. */
  lemma {:induction false} EncodeInjective(a: seq<FileHash>, b: seq<FileHash>)
    requires forall f <- a :: NulFree(f.path)
    requires forall f <- b :: NulFree(f.path)
    requires Encode(a) == Encode(b)
    ensures a == b
  {
    if a != [] && b != [] {
      FirstEntryDecodes(a[0], b[0], Encode(a[1..]), Encode(b[1..]));
      EncodeInjective(a[1..], b[1..]);
      assert a == [a[0]] + a[1..] && b == [b[0]] + b[1..];
    }
  }

  /** The covered files in the order the digest folds them. */
  function Entries(files: map<string, Hash>): (r: seq<FileHash>)
    ensures |r| == |files.Keys|
    ensures forall k <- r :: k.path in files && k.hash == files[k.path]
    ensures forall p <- files :: FileHash(p, files[p]) in r
  {
    var keys := SortedKeys(files.Keys);
    assert forall i :: 0 <= i < |keys| ==> keys[i] in files;
    var r := seq(|keys|, i requires 0 <= i < |keys| => FileHash(keys[i], files[keys[i]]));
    assert forall p <- files :: FileHash(p, files[p]) in r by {
      forall p <- files ensures FileHash(p, files[p]) in r {
        var i :| 0 <= i < |keys| && keys[i] == p;
        assert r[i] == FileHash(p, files[p]);
      }
    }
    r
  }

  ghost function Preimage(files: map<string, Hash>): Bytes {
    Encode(Entries(files))
  }

  ghost predicate NulFreePaths(files: map<string, Hash>) {
    forall p <- files :: NulFree(p)
  }

  /** Two file maps with the same preimage are the same map. */
  lemma PreimageInjective(a: map<string, Hash>, b: map<string, Hash>)
    requires NulFreePaths(a) && NulFreePaths(b)
    requires Preimage(a) == Preimage(b)
    ensures a == b
  {
    EncodeInjective(Entries(a), Entries(b));
    hide Entries;
    forall p ensures p in a <==> p in b {
      if p in a { assert FileHash(p, a[p]) in Entries(b); }
      if p in b { assert FileHash(p, b[p]) in Entries(a); }
    }
    forall p | p in a ensures a[p] == b[p] {
      assert FileHash(p, a[p]) in Entries(b);
    }
  }

  // ---------------------------------------------------------------- computing the digest

  const EXCLUDED: set<string> := {"plugin.sig", "plugin.sigstore.json"}

  /** A file met while walking the directory; `None` when it could not be read. */
  datatype FileEntry = FileEntry(relative: string, contents: Option<Bytes>)

  datatype DirectoryDigest = DirectoryDigest(root: Hash, preimage: Bytes, files: map<string, Hash>) {
    predicate Covers(relative: string) {
      relative in files
    }

    /** Confirms that `contents` are the bytes recorded for `relative` at digest time. */
    predicate Matches(relative: string, contents: Bytes, sha: HashFunction) {
      relative in files && files[relative] == sha(contents)
    }

    /** The digest is one `Compute` could have produced. */
    ghost predicate Genuine(sha: HashFunction) {
      preimage == Preimage(files) && root == sha(preimage) && NulFreePaths(files)
    }
  }

  /** The hashes of every readable covered file, later entries replacing earlier ones. */
  ghost function HashesOf(entries: seq<FileEntry>, sha: HashFunction): map<string, Hash> {
    if entries == [] then map[]
    else
      var last := entries[|entries| - 1];
      var before := HashesOf(entries[..|entries| - 1], sha);
      if last.relative in EXCLUDED || last.contents.None? then before
      else before[last.relative := sha(last.contents.value)]
  }

  ghost predicate Unreadable(e: FileEntry) {
    e.relative !in EXCLUDED && e.contents.None?
  }

  /** Hashes every covered file and folds the hashes, in path order, into one root. */
  method Compute(entries: seq<FileEntry>, sha: HashFunction) returns (digest: Option<DirectoryDigest>)
    ensures digest.None? <==> exists e <- entries :: Unreadable(e)
    ensures digest.Some? ==>
      var d := digest.value;
      d.files == HashesOf(entries, sha) && d.preimage == Preimage(d.files) && d.root == sha(d.preimage)
  {
    var files: map<string, Hash> := map[];
    for k := 0 to |entries|
      invariant files == HashesOf(entries[..k], sha)
      invariant forall i :: 0 <= i < k ==> !Unreadable(entries[i])
    {
      assert entries[..k + 1][..k] == entries[..k];
      if entries[k].relative !in EXCLUDED {
        if entries[k].contents.None? {
          assert Unreadable(entries[k]);
          return None;
        }
        files := files[entries[k].relative := sha(entries[k].contents.value)];
      }
    }
    assert entries[..|entries|] == entries;
    var preimage := Fold(Entries(files));
    digest := Some(DirectoryDigest(sha(preimage), preimage, files));
  }

  /** The entries' encodings, one after another. */
  method Fold(folded: seq<FileHash>) returns (preimage: Bytes)
    ensures preimage == Encode(folded)
  {
    hide EncodeOne;
    preimage := [];
    for k := 0 to |folded|
      invariant preimage + Encode(folded[k..]) == Encode(folded)
    {
      assert folded[k..][0] == folded[k] && folded[k..][1..] == folded[k + 1..];
      assert preimage + (EncodeOne(folded[k]) + Encode(folded[k + 1..])) ==
        (preimage + EncodeOne(folded[k])) + Encode(folded[k + 1..]);
      preimage := preimage + EncodeOne(folded[k]);
    }
    assert folded[|folded|..] == [];
  }

  /**
   * What a directory's digest covers: every file but the two kinds of signature, each under its path
   * with the hash of its contents, and of two entries for one path the later.
   */
  lemma {:induction false} CoversAll(entries: seq<FileEntry>, sha: HashFunction, p: string)
    requires forall e <- entries :: !Unreadable(e)
    ensures p in HashesOf(entries, sha) <==>
      p != "plugin.sig" && p != "plugin.sigstore.json" && exists e <- entries :: e.relative == p
    ensures forall k :: 0 <= k < |entries| && LastFor(entries, k, p) && p in HashesOf(entries, sha) ==>
      entries[k].contents.Some? && HashesOf(entries, sha)[p] == sha(entries[k].contents.value)
  {
    if entries != [] {
      var last := |entries| - 1;
      assert entries[last] in entries && entries == entries[..last] + [entries[last]];
      CoversAll(entries[..last], sha, p);
      assert forall k :: 0 <= k < last && LastFor(entries, k, p) ==> LastFor(entries[..last], k, p);
    }
  }

  ghost predicate LastFor(entries: seq<FileEntry>, k: nat, p: string)
    requires k < |entries|
  {
    entries[k].relative == p && forall l :: k < l < |entries| ==> entries[l].relative != p
  }

  // ---------------------------------------------------------------- hex

  const DIGITS := "0123456789abcdef"

  function Digit(n: int): char
    requires 0 <= n < 16
  {
    DIGITS[n]
  }

  /** Lowercase hex, two digits a byte. */
  function Hex(bytes: Bytes): (text: string)
    requires AreBytes(bytes)
    ensures |text| == 2 * |bytes|
    ensures forall c <- text :: c in DIGITS
  {
    if bytes == [] then ""
    else
      [Digit(bytes[0] / 16), Digit(bytes[0] % 16)] + Hex(bytes[1..])
  }

  method ToHex(bytes: Bytes) returns (text: string)
    requires AreBytes(bytes)
    ensures text == Hex(bytes)
  {
    text := "";
    for k := 0 to |bytes|
      invariant text + Hex(bytes[k..]) == Hex(bytes)
    {
      var digits := [Digit(bytes[k] / 16), Digit(bytes[k] % 16)];
      assert bytes[k..][1..] == bytes[k + 1..];
      assert text + (digits + Hex(bytes[k + 1..])) == (text + digits) + Hex(bytes[k + 1..]);
      text := text + digits;
    }
    assert bytes[|bytes|..] == [];
  }

  lemma DigitsDiffer(m: int, n: int)
    requires 0 <= m < 16 && 0 <= n < 16 && Digit(m) == Digit(n)
    ensures m == n
  {
  }

  lemma {:induction false} HexInjective(a: Bytes, b: Bytes)
    requires AreBytes(a) && AreBytes(b)
    requires Hex(a) == Hex(b)
    ensures a == b
  {
    assert |a| == |b|;
    if a != [] {
      assert Hex(a)[0] == Hex(b)[0] && Hex(a)[1] == Hex(b)[1];
      DigitsDiffer(a[0] / 16, b[0] / 16);
      DigitsDiffer(a[0] % 16, b[0] % 16);
      assert Hex(a)[2..] == Hex(a[1..]) && Hex(b)[2..] == Hex(b[1..]);
      HexInjective(a[1..], b[1..]);
      assert a == [a[0]] + a[1..] && b == [b[0]] + b[1..];
    }
  }

  /** What a hex digit of either case stands for, and -1 for anything else. */
  ghost function DigitValue(c: char): int {
    if '0' <= c <= '9' then c as int - '0' as int
    else if 'a' <= c <= 'f' then 10 + c as int - 'a' as int
    else if 'A' <= c <= 'F' then 10 + c as int - 'A' as int
    else -1
  }

  /** The text spells these bytes in hex, two digits a byte, in either case. */
  ghost predicate HexOf(text: string, bytes: Bytes) {
    |text| == 2 * |bytes| && forall i :: 0 <= i < |bytes| ==> ByteAt(text, i, bytes[i])
  }

  ghost predicate ByteAt(text: string, i: nat, byte: int)
    requires 2 * i + 1 < |text|
  {
    var high, low := DigitValue(text[2 * i]), DigitValue(text[2 * i + 1]);
    0 <= high < 16 && 0 <= low < 16 && byte == 16 * high + low
  }

  lemma DigitsStandForThemselves(n: int)
    requires 0 <= n < 16
    ensures DigitValue(Digit(n)) == n && LowerChar(Digit(n)) == Digit(n)
    ensures forall c: char :: DigitValue(c) == n ==> LowerChar(c) == Digit(n)
  {
  }

  lemma {:induction false} HexAt(bytes: Bytes, i: nat)
    requires AreBytes(bytes) && i < |bytes|
    ensures Hex(bytes)[2 * i] == Digit(bytes[i] / 16) && Hex(bytes)[2 * i + 1] == Digit(bytes[i] % 16)
  {
    if i > 0 {
      HexAt(bytes[1..], i - 1);
    }
  }

  /** Rendered bytes read back as themselves, and nothing else does once case is put aside. */
  lemma HexReadsBack(text: string, bytes: Bytes)
    requires AreBytes(bytes)
    ensures HexOf(Hex(bytes), bytes)
    ensures HexOf(text, bytes) <==> Lower(text) == Hex(bytes)
  {
    var hex := Hex(bytes);
    forall i | 0 <= i < |bytes| ensures ByteAt(hex, i, bytes[i]) {
      HexAt(bytes, i);
      DigitsStandForThemselves(bytes[i] / 16);
      DigitsStandForThemselves(bytes[i] % 16);
    }
    hide Hex, Digit, LowerChar, DigitValue;
    if |text| == 2 * |bytes| {
      forall i | 0 <= i < |bytes|
        ensures ByteAt(text, i, bytes[i]) <==>
          Lower(text)[2 * i] == hex[2 * i] && Lower(text)[2 * i + 1] == hex[2 * i + 1]
      {
        HexAt(bytes, i);
        SpelledAt(text[2 * i], text[2 * i + 1], bytes[i]);
      }
      SamePairs(Lower(text), hex, |bytes|);
    }
  }

  lemma SpelledAt(high: char, low: char, byte: int)
    requires 0 <= byte < 256
    ensures 0 <= DigitValue(high) < 16 && 0 <= DigitValue(low) < 16 &&
      byte == 16 * DigitValue(high) + DigitValue(low)
      <==> LowerChar(high) == Digit(byte / 16) && LowerChar(low) == Digit(byte % 16)
  {
    SpelledDigit(high, byte / 16);
    SpelledDigit(low, byte % 16);
  }

  lemma SpelledDigit(c: char, n: int)
    requires 0 <= n < 16
    ensures DigitValue(c) == n <==> LowerChar(c) == Digit(n)
  {
  }

  lemma SamePairs(a: string, b: string, n: nat)
    requires |a| == |b| == 2 * n
    ensures a == b <==> forall i :: 0 <= i < n ==> a[2 * i] == b[2 * i] && a[2 * i + 1] == b[2 * i + 1]
  {
    if forall i :: 0 <= i < n ==> a[2 * i] == b[2 * i] && a[2 * i + 1] == b[2 * i + 1] {
      forall k | 0 <= k < |a| ensures a[k] == b[k] {
        assert k == 2 * (k / 2) || k == 2 * (k / 2) + 1;
      }
    }
  }

  // ---------------------------------------------------------------- digest text

  const SHA256_PREFIX := "sha256:"

  function LowerChar(c: char): char {
    if 'A' <= c <= 'Z' then ((c as int - 'A' as int) + 'a' as int) as char else c
  }

  function Lower(s: string): (r: string)
    ensures |r| == |s|
    ensures forall i :: 0 <= i < |s| ==> r[i] == LowerChar(s[i])
  {
    seq(|s|, i requires 0 <= i < |s| => LowerChar(s[i]))
  }

  function StripPrefix(s: string): string {
    if SHA256_PREFIX <= s then s[|SHA256_PREFIX|..] else s
  }

  /** Strips an optional `sha256:` prefix and lowercases, yielding bare hex. */
  function BareDigest(digest: string): string {
    Lower(StripPrefix(Trim(digest)))
  }

  lemma DigitIsPlain(c: char)
    requires c in DIGITS
    ensures LowerChar(c) == c && !IsSpace(c) && c != ':' && c != 's'
  {
  }

  /** A rendered hash reads back as itself, with or without the prefix. */
  lemma BareDigestOfHex(h: Hash)
    ensures BareDigest(Hex(h)) == Hex(h)
    ensures BareDigest(SHA256_PREFIX + Hex(h)) == Hex(h)
    ensures Lower(Hex(h)) == Hex(h)
  {
    var hex := Hex(h);
    forall i | 0 <= i < |hex| ensures LowerChar(hex[i]) == hex[i] && !IsSpace(hex[i]) && hex[i] != 's' {
      assert hex[i] in hex;
      DigitIsPlain(hex[i]);
    }
    assert Lower(hex) == hex;
    assert Trim(hex) == hex;
    assert hex[0] != 's';
    var full := SHA256_PREFIX + hex;
    assert full[0] == 's' && full[|full| - 1] == hex[|hex| - 1];
    assert Trim(full) == full;
    assert full[|SHA256_PREFIX|..] == hex;
  }

  // ---------------------------------------------------------------- signers and revocations

  datatype Signer = Unsigned | Verified(identity: string, issuer: Option<string>) {
    function Identity(): Option<string> {
      match this
      case Unsigned => None
      case Verified(identity, _) => Some(identity)
    }

    function Issuer(): Option<string> {
      match this
      case Unsigned => None
      case Verified(_, issuer) => issuer
    }

    function Display(): string {
      match this
      case Unsigned => "unsigned"
      case Verified(identity, Some(issuer)) => identity + " (via " + issuer + ")"
      case Verified(identity, None) => identity
    }
  }

  /** A withdrawn build, a withdrawn identity, or both. */
  datatype Revocation = Revocation(digest: Option<string>, identity: Option<string>)

  predicate Names(r: Revocation, digest: Option<DirectoryDigest>, signer: Signer) {
    || (r.digest.Some? && digest.Some? && BareDigest(r.digest.value) == BareDigest(Hex(digest.value.root)))
    || (r.identity.Some? && r.identity == signer.Identity())
  }

  /** Whether any entry refuses this plugin. */
  predicate Revokes(list: seq<Revocation>, digest: Option<DirectoryDigest>, signer: Signer) {
    exists i :: 0 <= i < |list| && Names(list[i], digest, signer)
  }

  predicate NeedsDigest(list: seq<Revocation>) {
    exists i :: 0 <= i < |list| && list[i].digest.Some?
  }

  /** What an entry written for a build, in bare or prefixed form, refuses by itself. */
  /** The text denotes this hash: in hex of either case, with or without the prefix, amid any whitespace. */
  ghost predicate Denotes(text: string, h: Hash) {
    exists pre, hex, post :: Writes(text, pre, hex, post, h)
  }

  ghost predicate Writes(text: string, pre: string, hex: string, post: string, h: Hash) {
    && AllSpace(pre) && AllSpace(post) && HexOf(hex, h)
    && (text == pre + hex + post || text == pre + ("sha256:" + hex) + post)
  }

  /** Two texts are taken for the same digest exactly when they denote the same hash. */
  lemma DenotesIff(text: string, h: Hash)
    ensures Denotes(text, h) <==> BareDigest(text) == BareDigest(Hex(h))
  {
    BareDigestOfHex(h);
    if Denotes(text, h) {
      var pre, hex, post :| Writes(text, pre, hex, post, h);
      DenotedIsBare(text, pre, hex, post, h);
    }
    if BareDigest(text) == Hex(h) {
      BareIsDenoted(text, h);
    }
  }

  lemma BareIsDenoted(text: string, h: Hash)
    requires BareDigest(text) == Hex(h)
    ensures Denotes(text, h)
  {
    var pre, post := TrimmedFrom(text);
    var core := Trim(text);
    var hex := StripPrefix(core);
    HexReadsBack(hex, h);
    hide Hex, Trim, HexOf, AllSpace;
    PrefixOrNot(core);
    assert Writes(text, pre, hex, post, h);
  }

  lemma PrefixOrNot(core: string)
    ensures core == StripPrefix(core) || core == "sha256:" + StripPrefix(core)
  {
    if SHA256_PREFIX <= core {
      assert core == core[..7] + core[7..];
    }
  }

  lemma DenotedIsBare(text: string, pre: string, hex: string, post: string, h: Hash)
    requires Writes(text, pre, hex, post, h)
    ensures BareDigest(text) == Hex(h)
  {
    HexReadsBack(hex, h);
    HexIsTrimmed(hex, h);
    var full := "sha256:" + hex;
    assert full[0] == 's' && full[|full| - 1] == hex[|hex| - 1];
    TrimPadded(pre, hex, post);
    TrimPadded(pre, full, post);
    assert StripPrefix(full) == hex by {
      assert full[|SHA256_PREFIX|..] == hex;
    }
    assert StripPrefix(hex) == hex;
  }

  lemma HexIsTrimmed(hex: string, h: Hash)
    requires HexOf(hex, h)
    ensures |hex| == 64 && Trimmed(hex) && hex[0] != 's'
  {
    assert ByteAt(hex, 0, h[0]) && ByteAt(hex, 31, h[31]);
    assert DigitValue(hex[2 * 0]) >= 0 && DigitValue(hex[2 * 31 + 1]) >= 0;
  }

  /** An entry withdraws this build, or everything this identity signed. */
  ghost predicate Withdraws(entry: Revocation, digest: Option<DirectoryDigest>, signer: Signer) {
    || (entry.digest.Some? && digest.Some? && Denotes(entry.digest.value, digest.value.root))
    || (entry.identity.Some? && signer.Verified? && entry.identity.value == signer.identity)
  }

  lemma NamesIff(entry: Revocation, digest: Option<DirectoryDigest>, signer: Signer)
    ensures Names(entry, digest, signer) <==> Withdraws(entry, digest, signer)
  {
    if entry.digest.Some? && digest.Some? {
      DenotesIff(entry.digest.value, digest.value.root);
    }
  }

  /** A list refuses a plugin exactly when some entry of it denotes its digest or names who signed it. */
  lemma RevokesIff(list: seq<Revocation>, digest: Option<DirectoryDigest>, signer: Signer)
    ensures Revokes(list, digest, signer) <==> exists entry <- list :: Withdraws(entry, digest, signer)
  {
    hide Names, Withdraws;
    forall entry ensures Names(entry, digest, signer) <==> Withdraws(entry, digest, signer) {
      NamesIff(entry, digest, signer);
    }
    if entry :| entry in list && Withdraws(entry, digest, signer) {
      var i :| 0 <= i < |list| && list[i] == entry;
    }
  }

  /**
   * Adding an entry for a build anywhere to any list refuses, besides what the list refused before,
   * exactly the build with that root, whoever signed it, and whatever the identity it names signed.
   */
  lemma DigestEntryRefusesItsBuild(before: seq<Revocation>, entry: Revocation, after: seq<Revocation>, h: Hash,
                                   digest: Option<DirectoryDigest>, signer: Signer)
    requires entry.digest.Some? && Denotes(entry.digest.value, h)
    ensures Revokes(before + [entry] + after, digest, signer) <==>
      || Revokes(before + after, digest, signer)
      || (digest.Some? && digest.value.root == h)
      || (entry.identity.Some? && signer.Verified? && entry.identity.value == signer.identity)
  {
    var list, rest := before + [entry] + after, before + after;
    RevokesIff(list, digest, signer);
    RevokesIff(rest, digest, signer);
    if digest.Some? {
      OneDenoted(entry.digest.value, h, digest.value.root);
    }
    assert Withdraws(entry, digest, signer) <==>
        || (digest.Some? && digest.value.root == h)
        || (entry.identity.Some? && signer.Verified? && entry.identity.value == signer.identity);
    hide Revokes, Denotes, Withdraws;
    assert forall e :: e in list <==> e in rest || e == entry;
    assert (exists e <- list :: Withdraws(e, digest, signer)) <==>
        (exists e <- rest :: Withdraws(e, digest, signer)) || Withdraws(entry, digest, signer);
  }

  /** A text denotes one hash only. */
  lemma OneDenoted(text: string, a: Hash, b: Hash)
    requires Denotes(text, a)
    ensures Denotes(text, b) <==> a == b
  {
    DenotesIff(text, a);
    DenotesIff(text, b);
    BareDigestOfHex(a);
    BareDigestOfHex(b);
    if Hex(a) == Hex(b) {
      HexInjective(a, b);
    }
  }
}
