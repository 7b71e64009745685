/** What a plugin asks for, and what policy lets it have: `approve_capabilities`. */
module Capabilities {
  import opened Wrappers
  import opened Values
  import opened Manifests

  /** Manifest key reserved by the registry rather than passed to a provider. */
  const OPTIONAL_KEY := "optional"

  datatype CapabilityRequest = CapabilityRequest(
    plugin: string, capability: string, params: Value, optional: bool, signer: string)

  datatype Decision = Grant | GrantWith(params: Value) | Deny

  /** One capability the policy approved, with the parameters every call carries. */
  datatype Approval = Approval(name: string, plugin: string, params: Value)

  function Params(declared: map<string, Value>): Value {
    Map(declared - {OPTIONAL_KEY})
  }

  predicate IsOptional(declared: map<string, Value>) {
    OPTIONAL_KEY in declared && declared[OPTIONAL_KEY] == Bool(true)
  }

  /** What the host brings to the decision: the providers it offers, and its policy. */
  datatype Host = Host(offered: set<string>, decide: CapabilityRequest -> Decision)

  function RequestFor(m: Manifest, signer: string, name: string): CapabilityRequest
    requires name in m.capabilities
  {
    CapabilityRequest(m.name, name, Params(m.capabilities[name]), IsOptional(m.capabilities[name]), signer)
  }

  // ---------------------------------------------------------------- what a declaration asks for

  /** The declared table without the reserved key. */
  ghost function DeclaredParams(declared: map<string, Value>): Value {
    Map(declared - {"optional"})
  }

  /** Only `optional = true` makes a capability optional. */
  ghost predicate DeclaredOptional(declared: map<string, Value>) {
    "optional" in declared && declared["optional"] == Bool(true)
  }

  /** What policy is asked. */
  ghost function Asked(m: Manifest, signer: string, name: string): CapabilityRequest
    requires name in m.capabilities
  {
    var declared := m.capabilities[name];
    CapabilityRequest(m.name, name, DeclaredParams(declared), DeclaredOptional(declared), signer)
  }

  /** The parameters the host stands behind for one declared capability, if it does at all. */
  ghost function Allowed(m: Manifest, signer: string, host: Host, name: string): Option<Value>
    requires name in m.capabilities
  {
    if name !in host.offered then None
    else
      match host.decide(Asked(m, signer, name))
      case Grant => Some(DeclaredParams(m.capabilities[name]))
      case GrantWith(params) => if params.Map? then Some(params) else None
      case Deny => None
  }

  /** A policy that answers with anything but a table is at fault, optional or not. */
  ghost predicate Misgranted(m: Manifest, signer: string, host: Host, name: string)
    requires name in m.capabilities
  {
    name in host.offered &&
    match host.decide(Asked(m, signer, name))
    case GrantWith(params) => !params.Map?
    case _ => false
  }

  function ApprovalNames(approved: seq<Approval>): (names: seq<string>)
    ensures |names| == |approved|
    ensures forall i :: 0 <= i < |approved| ==> names[i] == approved[i].name
  {
    seq(|approved|, i requires 0 <= i < |approved| => approved[i].name)
  }

  /** The allowed capabilities among `names`, in that order, with the allowed parameters. */
  ghost function ApprovedFrom(m: Manifest, signer: string, host: Host, names: seq<string>): seq<Approval>
    requires forall name <- names :: name in m.capabilities
  {
    if names == [] then []
    else
      var last := |names| - 1;
      var before := ApprovedFrom(m, signer, host, names[..last]);
      match Allowed(m, signer, host, names[last])
      case None => before
      case Some(params) => before + [Approval(names[last], m.name, params)]
  }

  ghost function Approved(m: Manifest, signer: string, host: Host): seq<Approval> {
    ApprovedFrom(m, signer, host, SortedKeys(m.capabilities.Keys))
  }

  ghost predicate Tolerable(m: Manifest, signer: string, host: Host, name: string)
    requires name in m.capabilities
  {
    !Misgranted(m, signer, host, name) &&
    (DeclaredOptional(m.capabilities[name]) || Allowed(m, signer, host, name).Some?)
  }

  /** The plugin may load: everything it cannot do without is allowed. */
  ghost predicate Approvable(m: Manifest, signer: string, host: Host) {
    forall name <- m.capabilities :: Tolerable(m, signer, host, name)
  }

  datatype Ruling = Refuse | Skip | Approve(params: Value) {
    function Granted(): Option<Value> {
      match this
      case Approve(params) => Some(params)
      case _ => None
    }
  }

  /** The decision on one declared capability: unoffered, then policy, then what it granted. */
  function Rule(m: Manifest, signer: string, host: Host, name: string): Ruling
    requires name in m.capabilities
  {
    var request := RequestFor(m, signer, name);
    if name !in host.offered then
      if request.optional then Skip else Refuse
    else
      match host.decide(request)
      case Grant => Approve(request.params)
      case GrantWith(params) => if params.Map? then Approve(params) else Refuse
      case Deny => if request.optional then Skip else Refuse
  }

  lemma RuleMeans(m: Manifest, signer: string, host: Host, name: string)
    requires name in m.capabilities
    ensures Rule(m, signer, host, name) == Refuse <==> !Tolerable(m, signer, host, name)
    ensures Tolerable(m, signer, host, name) ==>
      Allowed(m, signer, host, name) == Rule(m, signer, host, name).Granted()
  {
  }

  /**
   * Runs policy over everything a manifest declares. The plugin is refused outright unless
   * every capability it does not mark optional is offered and granted.
   */
  method ApproveCapabilities(m: Manifest, signer: string, host: Host) returns (r: Option<seq<Approval>>)
    ensures r.Some? <==> Approvable(m, signer, host)
    ensures r.Some? ==> r.value == Approved(m, signer, host)
  {
    hide Tolerable, Allowed, Rule, ApprovedFrom;
    var names := SortedKeys(m.capabilities.Keys);
    var approved: seq<Approval> := [];
    ApprovedNext(m, signer, host, names, 0);
    for k := 0 to |names|
      invariant forall i :: 0 <= i < k ==> names[i] in m.capabilities && Tolerable(m, signer, host, names[i])
      invariant approved == ApprovedFrom(m, signer, host, names[..k])
    {
      ApprovedNext(m, signer, host, names, k);
      RuleMeans(m, signer, host, names[k]);
      match Rule(m, signer, host, names[k])
      case Refuse => return None;
      case Skip =>
      case Approve(params) => approved := approved + [Approval(names[k], m.name, params)];
    }
    assert names[..|names|] == names;
    assert forall name <- m.capabilities :: name in names;
    r := Some(approved);
  }

  lemma ApprovedNext(m: Manifest, signer: string, host: Host, names: seq<string>, k: nat)
    requires k <= |names| && forall name <- names :: name in m.capabilities
    ensures ApprovedFrom(m, signer, host, []) == []
    ensures k < |names| ==>
      var allowed := Allowed(m, signer, host, names[k]);
      ApprovedFrom(m, signer, host, names[..k + 1]) == ApprovedFrom(m, signer, host, names[..k]) +
        (if allowed.Some? then [Approval(names[k], m.name, allowed.value)] else [])
  {
    if k < |names| {
      assert names[..k + 1][..k] == names[..k];
    }
  }

  /** Read off the approvals: a name is granted exactly when declared, offered and allowed, and with what. */
  lemma {:induction false} ApprovedFromIff(m: Manifest, signer: string, host: Host, names: seq<string>, a: Approval)
    requires forall name <- names :: name in m.capabilities
    ensures a in ApprovedFrom(m, signer, host, names) <==>
      a.name in names && a.plugin == m.name && Allowed(m, signer, host, a.name) == Some(a.params)
    decreases |names|
  {
    if names != [] {
      var last := |names| - 1;
      assert names == names[..last] + [names[last]];
      ApprovedFromIff(m, signer, host, names[..last], a);
    }
  }

  lemma ApprovedIff(m: Manifest, signer: string, host: Host, a: Approval)
    ensures a in Approved(m, signer, host) <==>
      a.name in m.capabilities && a.plugin == m.name && Allowed(m, signer, host, a.name) == Some(a.params)
  {
    ApprovedFromIff(m, signer, host, SortedKeys(m.capabilities.Keys), a);
  }
}
