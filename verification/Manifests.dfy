/** Plugin manifests, as far as resolution, loading and review read them. */
module Manifests {
  import opened Wrappers
  import opened Distinctness
  import opened Values

  /** Semver versions, as positions in their total order (SemVer 2.0.0, section 11). */
  type Version = int

  /** The version a manifest without one is taken to have: `0.0.0`. */
  const UNVERSIONED: Version := 0

  datatype PluginType = Lua | Wasm

  /** One `[dependencies]` entry; the requirement is the predicate it denotes. */
  datatype Dependency = Dependency(name: string, accepts: Version -> bool, optional: bool)

  datatype Manifest = Manifest(
    name: string,
    version: Option<Version>,
    pluginType: PluginType,
    entry: string,
    dependencies: seq<Dependency>,
    capabilities: map<string, map<string, Value>>,
    rocks: map<string, string>,
    dir: string)
  {
    function EffectiveVersion(): Version {
      match version
      case Some(v) => v
      case None => UNVERSIONED
    }

    /** The dependency table is a `BTreeMap` in iteration order, so no name occurs twice. */
    ghost predicate Keyed() {
      forall i, j :: 0 <= i < j < |dependencies| ==> dependencies[i].name != dependencies[j].name
    }
  }

  /** A manifest without a version has version 0. */
  ghost predicate HasVersion(m: Manifest, v: Version) {
    v == match m.version case Some(declared) => declared case None => 0
  }

  function Names(ms: seq<Manifest>): (names: seq<string>)
    ensures |names| == |ms|
    ensures forall i :: 0 <= i < |ms| ==> names[i] == ms[i].name
  {
    seq(|ms|, i requires 0 <= i < |ms| => ms[i].name)
  }

  /** The last of the first `k` positions holding each name, as inserting in turn leaves it. */
  function PositionUpTo(ms: seq<Manifest>, k: nat): map<string, int>
    requires k <= |ms|
  {
    if k == 0 then map[] else PositionUpTo(ms, k - 1)[ms[k - 1].name := k - 1]
  }

  lemma {:induction false} PositionHolds(ms: seq<Manifest>, k: nat)
    requires k <= |ms|
    ensures forall i :: 0 <= i < k ==> ms[i].name in PositionUpTo(ms, k)
    ensures forall name <- PositionUpTo(ms, k) ::
      0 <= PositionUpTo(ms, k)[name] < k && ms[PositionUpTo(ms, k)[name]].name == name
  {
    if k > 0 {
      PositionHolds(ms, k - 1);
    }
  }

  function Position(ms: seq<Manifest>): (position: map<string, int>)
    ensures forall i :: 0 <= i < |ms| ==> ms[i].name in position
    ensures forall name <- position :: 0 <= position[name] < |ms| && ms[position[name]].name == name
  {
    PositionHolds(ms, |ms|);
    PositionUpTo(ms, |ms|)
  }

  lemma PositionKeys(ms: seq<Manifest>, x: string)
    ensures x in Position(ms) <==> x in Names(ms)
  {
    if x in Names(ms) {
      var i :| 0 <= i < |ms| && Names(ms)[i] == x;
      assert ms[i].name == x;
    }
    if x in Position(ms) {
      assert Names(ms)[Position(ms)[x]] == x;
    }
  }

  lemma DistinctPosition(ms: seq<Manifest>, i: int)
    requires Distinct(Names(ms)) && 0 <= i < |ms|
    ensures ms[i].name in Position(ms) && Position(ms)[ms[i].name] == i
  {
    var names, name := Names(ms), ms[i].name;
    assert names[i] == name;
    var at := Position(ms)[name];
    assert names[at] == name;
  }
}

/** Why a plugin did not load. */
module Failures {
  datatype FailureReason =
    | UnreadableManifest
    | MissingDependency(dependency: string)
    | IncompatibleDependency(dependency: string)
    | DependencyCycle(cycle: seq<string>)
    | DependencyFailed(dependency: string)
    | AlreadyRegistered
    | Rocks
    | Unsigned
    | UntrustedSigner
    | SignatureInvalid
    | Revoked
    | Locked
    | Io
    | UncoveredFile
    | DigestMismatch
    | NoBackend
    | Runtime

  datatype LoadFailure = LoadFailure(name: string, dir: string, reason: FailureReason)

  function FailureNames(fs: seq<LoadFailure>): (names: seq<string>)
    ensures |names| == |fs|
    ensures forall i :: 0 <= i < |fs| ==> names[i] == fs[i].name
  {
    seq(|fs|, i requires 0 <= i < |fs| => fs[i].name)
  }
}
