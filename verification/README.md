# Stanchion, verified

Stanchion is a plugin host. This project models, in Dafny, the parts of it whose
correctness is not local to one function, and proves what they are for:

- ordering plugins by their dependencies, deciding which of them share a Lua state, and how far
  one plugin's failure reaches (`Components`, `Kahn`, `Resolution`, `Declared`, `LuaBackend`, `Isolation`);
- the registry: what a plugin must pass before it runs, the name index over the loaded
  plugins, and what stays true through every operation (`Vetting`, `Registry`, with
  `Capabilities`, `Signature`, `Lock`, `Rocks`, `Requirement`; `Runtime` is the Lua backend as
  the registry sees it);
- the out-of-process host: framing, both ends of the channel, and the two together
  (`Frame`, `HostChannel`, `RemoteClient`, `Session`, `Refinement`, `Composition`, after sections 4 and 5
  of JSON-RPC 2.0);
- functions crossing between Lua and the host through a queue (`LuaValues`, `Convert`);
- packages, staged installs and upgrade reviews (`Paths`, `Package`, `Install`, `Upgrade`).

Loops over fields, maps, queues and buffers are methods of classes or methods with loops,
each proved against a specification function or predicate; the laws are lemmas about those.
What lies outside is a parameter: the disk as one call finds it, backends and plugins by what
they answer, SHA-256 as any function to 32 bytes (never assumed injective: results say "equal,
or here is a collision"), JSON text as any lawful rendering, policies and handlers as functions
of all they have seen. Versions are positions in the semver order (SemVer 2.0.0, section 11).

`dafny verify dfyconfig.toml` checks everything.

Where the code and what is said about it differ, the model follows the code:

- Shared isolation is described as one state for all plugins. A second load into the same
  backend opens a second state, since states are pooled per load
  (crates/stanchion-lua/src/backend.rs:879): `LuaBackends.SecondSharedLoadSplits`, `LuaBackends.OneStateIff`.
- Ordering accounts for every manifest only if names are distinct
  (crates/stanchion-registry/src/manifest.rs:184): `Resolution.ConservedIffDistinct`.
- The load report drops a plugin that a backend omits when something of its name had failed before
  (crates/stanchion-registry/src/lib.rs:729): `Registries.Registry.LoadDir`, `Registries.OmittedIsDropped`.
- Functions are said to be stashed in exactly the order they are taken back
  (crates/stanchion-lua/src/convert.rs:120-124). For mixed and for sparse tables they are not:
  `Convert.CrossesIff` and the two `Misbinds` lemmas.
- An interrupted commit is said to leave the old plugin or the new one
  (crates/stanchion-dist/src/install.rs:449-452). It can also leave neither in place
  (`Installs.NeitherInPlaceIff`), and a second one can lose both: `Installs.NeverLosesIff`,
  `Installs.SecondCommitCanLose`.
- `~>` is described as at least the version, below the next increment of its last component
  (crates/stanchion-abi/src/rocks.rs:229). It also lets in prereleases of that increment and, after
  a textual last component, whatever continues its text: `Rocks.CompatibleIff`, `Rocks.TextIsContinued`.
  With no last component, or the largest number there, it accepts nothing, not even the version
  itself: `Rocks.CompatibleAsDescribedIff`.
- A panic while a plugin is built is described as that plugin's failure rather than the whole load's
  (crates/stanchion-lua/src/backend.rs:1089-1090). It is caught only outside the lock on the state
  (crates/stanchion-lua/src/backend.rs:451-454, 1091-1095), so every later plugin of that state finds the
  lock poisoned and fails as well: `Isolation.FailureIsolatedIff`, `Isolation.PanicSpreads`.
- A commit of one plugin can delete another: a plugin whose name is the first one's aside name, or a tree
  that a failed commit left aside under a shared aside name (crates/stanchion-dist/src/install.rs:454-456):
  `Installs.SparesIff`, `Installs.SharedAsideIff`.
- An entry spelled with a leading `./` is a valid manifest, but no digest covers it
  (crates/stanchion-registry/src/lib.rs:1283-1286): `Vetting.BoundIff`.

## Model

| member | source | states |
|---|---|---|
| Components.Find | crates/stanchion-lua/src/backend.rs:756-768 | in-place path splitting on the parent array ends at the representative, points each node of the path at its former grandparent and changes no other, and keeps every node's class; terminates on a ghost depth that survives rewrites and unions |
| Components.SplittingKeepsForest | crates/stanchion-lua/src/backend.rs:756-768 | repointing a node at its grandparent changes neither any representative nor any depth |
| Components.Unite | crates/stanchion-lua/src/backend.rs:779-789 | joining two nodes merges exactly their two classes and no others |
| Components.DependencyComponents | crates/stanchion-lua/src/backend.rs:753-795 | two members of any group get the same component id if and only if a chain of dependency edges inside the group, read as undirected, joins them |
| Components.ComponentsOverNames | crates/stanchion-lua/src/backend.rs:751-795 | for distinct names the same, read over plugin names and declared dependencies instead of array positions |
| LuaBackends.LuaBackend.StateFor | crates/stanchion-lua/src/backend.rs:394-438 | a recorded state is kept; a new plugin joins a state of its unit that the group has, or has one created where states can be; nothing changes when neither works |
| LuaBackends.LuaBackend.LoadMember | crates/stanchion-lua/src/backend.rs:1027-1129 | one member loads exactly when it has a state no panic has poisoned, every required dependency has a proxy, and it builds; exactly then, and only with exports, is a surface published; a panic poisons just its own state; it has a state afterwards exactly when it had one, or asked for one and there are any |
| LuaBackends.LuaBackend.LoadGroup | crates/stanchion-lua/src/backend.rs:856-928 | one outcome per member in order; loaded is exactly the recursive fate over earlier members, panics and poisoned states included; exactly the housed members have states afterwards, shared exactly by unit from any pool; exactly the providing plugins have surfaces; poisoned are exactly the states that were, or that a member panicked in |
| LuaBackends.LuaBackend.ReloadPlugin | crates/stanchion-lua/src/backend.rs:930-1012 | rebuilt in its own state, unless that is poisoned; every proxy handed out stays the same object; a failed reload changes no surface |
| LuaBackends.LuaBackend.Unload | crates/stanchion-lua/src/backend.rs:1014-1021 | forgets the plugin's state and surface and nobody else's |
| LuaBackends.FirstLoadSharing | crates/stanchion-lua/src/backend.rs:394-438 | in the first load of a fresh backend two members with states share one always (Shared), never (PerPlugin), or iff dependencies connect them (PerGroup) |
| LuaBackends.OneStateIff | crates/stanchion-lua/src/backend.rs:404-412 | a shared-mode load leaves one single state exactly when there was no more than one before, and either the pool was empty or the load houses no plugin that is new to it; read off the pool, the group and the world before the load |
| LuaBackends.SecondSharedLoadSplits | crates/stanchion-lua/src/backend.rs:879-879 | a concrete pair of loads into one shared-mode backend that ends in two states |
| Isolation.FailureIsolatedIff | crates/stanchion-lua/src/backend.rs:451-454 | for any group of distinct names, pool and mode: what the plugins a member does not depend on do, in any two loads, makes no difference to its outcome if and only if it can never be run, or no panic of theirs reaches it: none that can be run is before it, or before anything that feeds it, in the same state, directly or by way of other panics it would prevent |
| Isolation.FirstLoadIsolatedIff | crates/stanchion-lua/src/backend.rs:1089-1095 | in a first load: if and only if it depends, directly or not, on every earlier member of its state that can be run |
| Isolation.PanicSpreads | crates/stanchion-lua/src/backend.rs:1089-1095 | of any two plugins without dependencies loaded into one shared state, a panic of the first keeps out the second, which does not depend on it and otherwise loads |
| LuaRuntimes.Load | crates/stanchion-lua/src/backend.rs:905-927 | the outcomes of a group load, as the registry hears of them, are one for each plugin handed over, in order, each loaded one running the bytes it came with and holding what was approved |
| LuaRuntimes.LuaIsFaithful | crates/stanchion-lua/src/backend.rs:905-927 | so a Lua backend, whatever its pool and whatever its plugins do, meets all that the registry asks of its backends |
| Resolution.CheckFindsFirstUnmet | crates/stanchion-registry/src/manifest.rs:83-102 | the check passes iff every dependency is satisfied; a refusal names the first unmet one and whether it is missing or incompatible |
| Kahn.Drain | crates/stanchion-registry/src/manifest.rs:156-174 | on any graph the queue's order respects every edge and leaves out only plugins waiting for another left out; counts never saturate; terminates |
| Kahn.HeldBackIffCycle | crates/stanchion-registry/src/manifest.rs:163-197 | a plugin is left out of a finished order if and only if following dependencies from it runs into a cycle |
| Resolution.BuildTables | crates/stanchion-registry/src/manifest.rs:128-154 | the indegree map and the dependents map describe one and the same graph of counted edges |
| Resolution.ResolveOrder | crates/stanchion-registry/src/manifest.rs:108-204 | for every input, every name that passed is ordered or held back, once; with distinct names the order is topological, cycle failures are exactly the plugins leading to a cycle, and idle plugins come first by name; what this comes to in terms of the manifests alone is `Declared.OrderAsDeclared` |
| Declared.CheckedAsDeclared | crates/stanchion-registry/src/manifest.rs:83-113 | whatever the names: a manifest passes the check iff each of its dependencies is there at the version its last manifest declares (0 when it declares none) and accepts it, or is not there and optional; a refusal is for the first that is not |
| Declared.OrderAsDeclared | crates/stanchion-registry/src/manifest.rs:108-204 | for distinct names, what ordering returns, read off the manifests alone: ordered are exactly those with all requirements met from which following declared dependencies never runs into a cycle; every other fails, every failure is one of these and for its own reason; each comes after what it waits for |
| Resolution.ConservedIffDistinct | crates/stanchion-registry/src/manifest.rs:108-204 | every manifest ends in exactly one of order and failures if and only if no two manifests that pass share a name |
| Resolution.TwinsLoseOne | crates/stanchion-registry/src/manifest.rs:184-184 | any two plugins of one name that ask for nothing: one is lost without a trace |
| Resolution.DependenciesComeFirst | crates/stanchion-registry/src/manifest.rs:108-204 | each ordered plugin comes after every dependency that is present and passed the check |
| Convert.FunctionCache.StashFunction | crates/stanchion-lua/src/convert.rs:24-29 | appends to the queue |
| Convert.FunctionCache.TakeFunction | crates/stanchion-lua/src/convert.rs:32-39 | takes the head of the queue, or reports that it is empty |
| Convert.FunctionCache.LuaToAbi | crates/stanchion-lua/src/convert.rs:80-98 | the value crosses as specified, and exactly its functions are appended, in conversion order |
| Convert.FunctionCache.LuaTableToValue | crates/stanchion-lua/src/convert.rs:117-177 | the sorting loop, dense scan and put-back loop compute a list when keys are 1..=n, otherwise the labelled map with later entries replacing earlier |
| Convert.FunctionCache.AbiToLua | crates/stanchion-lua/src/convert.rs:50-73 | rebuilds the value taking functions from the head; fails exactly when the queue runs dry |
| LuaValues.KeyOrderSorted | crates/stanchion-lua/src/convert.rs:179-188 | entries are converted in a total order of all keys, each once |
| Convert.Binds | crates/stanchion-lua/src/convert.rs:50-98 | for every value: the way back gives every function its own key exactly from the queues that begin with the functions in walking order, and takes just those |
| Convert.CrossesIff | crates/stanchion-lua/src/convert.rs:117-177 | where all functions differ, the queue round trip is right and leaves the queue empty if and only if in every table the function-holding entries survive and are walked in conversion order |
| Convert.OrderlyCrosses | crates/stanchion-lua/src/convert.rs:117-188 | for such values it is right whatever else waits behind in the queue, functions repeated or not |
| Convert.RoundTrip | crates/stanchion-lua/src/convert.rs:50-188 | values whose tables are dense 1..n or keyed by text alone come back equal, functions included, leaving the rest of the queue |
| Convert.MixedTableMisbinds | crates/stanchion-lua/src/convert.rs:131-146 | a table keyed by 1 and by a text: the round trip is wrong |
| Convert.SparseTableMisbinds | crates/stanchion-lua/src/convert.rs:150-174 | a table keyed by 2 and 10: stashed by number, walked by text, the functions change places |
| Convert.FunctionCache.Carry | crates/stanchion-lua/src/convert.rs:41-98 | cleared queue, then both conversions: plain values arrive unchanged, orderly ones as meant, with nothing left over |
| Vetting.VerifyPlugin | crates/stanchion-registry/src/lib.rs:1176-1228 | a plugin passes if and only if some digest and signer, as found on disk, satisfy every demand: verifier, revocations, lockfile; under a list with entries only if all its covered files are readable and no entry denotes their digest or names who signed it; a refusal is for the first demand not met |
| Vetting.FoundIsUndenied | crates/stanchion-registry/src/lib.rs:1182-1192 | what is found and cleared under a list with entries has the digest of its files as they were found, and no entry of the list denotes it or names its signer |
| Vetting.BindEntry | crates/stanchion-registry/src/lib.rs:1278-1302 | no failure exactly when the bytes are those the digest recorded under the entry, its path taken apart and joined again |
| Vetting.BoundIff | crates/stanchion-registry/src/lib.rs:1278-1302 | over files keyed by clean paths, an entry however spelled is bound exactly to the file its path leads to, except that one with a leading dot never is |
| Packages.EntryKey | crates/stanchion-registry/src/lib.rs:1293-1302 | the key an entry is looked up under is the name unpacking gives its path, but for a leading dot |
| Vetting.Examine | crates/stanchion-registry/src/lib.rs:535-619 | a plugin becomes ready if and only if it is new, no required dependency has failed, its rocks are there, and what is found on disk verifies and binds; the item is what was found; otherwise the reason is that of the first check it fails |
| Vetting.AdmissibleIsUndenied | crates/stanchion-registry/src/lib.rs:1182-1217 | under a list with entries nothing becomes ready whose files, as this load finds them, are unreadable or denoted by an entry |
| Vetting.Screen | crates/stanchion-registry/src/lib.rs:531-619 | every ordered manifest becomes ready or a failure, once, each judged by the failures before it, and each failure with its directory and the reason of the first check it fails |
| Vetting.Sweep | crates/stanchion-registry/src/lib.rs:725-751 | reports exactly the ready plugins that neither failed nor loaded, each for a dependency that failed by then or for want of an answer |
| Vetting.OneEachIsFaithful | crates/stanchion-lua/src/backend.rs:905-927 | a backend that answers once for each plugin handed over, granting what was approved, meets all that is asked of backends here |
| Vetting.PinnedContents | crates/stanchion-registry/src/lock.rs:323-341 | a loaded plugin whose build was pinned covers the very files that were pinned, or exhibits a hash collision |
| Vetting.LoadConserves | crates/stanchion-registry/src/lib.rs:522-754 | the load report is conserved exactly when ordering lost no manifest and the sweep dropped none |
| Registries.Registry.Admit | crates/stanchion-registry/src/lib.rs:682-722 | outcomes join the vector, the index or the failures one for one; exactly those loaded and handed over are loaded, each made from its own item with the instance and the grants of its own outcome; an outcome for an unknown plugin is a failure |
| Registries.Registry.Deliver | crates/stanchion-registry/src/lib.rs:621-723 | one type's plugins are handed to their backend, or all fail for want of one; the failures are exactly what the backend answers, or one for each |
| Registries.Registry.LoadDir | crates/stanchion-registry/src/lib.rs:522-754 | keeps the registry invariant; readies exactly what nothing stands in the way of, in dependency order; loads exactly what the backends report of it, each from what was found for it, with the instance and the grants its own backend answered, which are those policy approved; the failures reported are exactly, in order and with reasons: unreadable directories, what could not be ordered, what was kept back, what the backends answered, what they left out; the report is conserved iff passing names are distinct and no plugin was dropped, where dropped is: ready, reported by no backend, and of a name that had failed before screening |
| Registries.DistinctLoadConserves | crates/stanchion-registry/src/lib.rs:522-754 | distinct manifest names, none equal to an unreadable directory's: every plugin found is accounted for exactly once |
| Registries.UnsweptIff | crates/stanchion-registry/src/lib.rs:728-732 | the sweep passes over a plugin nobody reported on exactly when its name was among the failures before screening |
| Registries.OmittedIsDropped | crates/stanchion-registry/src/lib.rs:725-751 | an unreadable directory of the name of any plugin that asks for nothing, and a backend that answers nothing: the plugin is ready, then neither loads nor fails, and the report is not conserved |
| Registries.Registry.Reload | crates/stanchion-registry/src/lib.rs:759-854 | succeeds iff the plugin is known, unchanged in name and type, and passes everything anew, then takes its own slot with the instance and the grants its backend answered; otherwise the vector is as it was, and the reason is that of the first check that fails |
| Vetting.Reexamine | crates/stanchion-registry/src/lib.rs:797-806 | one manifest verified, read and bound: the only item that can be found for it, or a reason |
| Registries.Rebuild | crates/stanchion-registry/src/lib.rs:778-839 | succeeds iff the manifest read back is the same plugin, verifies, binds and builds |
| Registries.Registry.Remove | crates/stanchion-registry/src/lib.rs:860-881 | removes exactly that name, keeps the order, rebuilds an index that is again the exact inverse, and tells its backend |
| Registries.Registry.ApplyRevocations | crates/stanchion-registry/src/lib.rs:889-928 | repeated removal leaves exactly the unrefused plugins in their order, all sound under the new list, and reports exactly the refused, as revoked or unreadable, and tells their backends, in order |
| Registries.Registry.Revoke | crates/stanchion-registry/src/lib.rs:1053-1085 | the first occurrence of one grant goes, nothing else changes |
| Registries.Registry.Get | crates/stanchion-registry/src/lib.rs:1143-1148 | the index finds what a search of the vector would find |
| Registries.Run | crates/stanchion-registry/src/lib.rs:522-928 | every run goes from one moment to the next as its operations say; at each moment names are distinct, the index is the inverse of the vector, and every plugin is cleared by the revocations then in force and the lockfile, built from bytes matching its digest, with grants within what was approved; the list in force at the end is the last one applied |
| Registries.Provenance | crates/stanchion-registry/src/lib.rs:522-1085 | wherever a run stands, each plugin was supplied by some load or reload of that run: found on disk with its manifest, bytes, digest and signer, none of it on the list then in force; it runs the instance its backend answered then, and holds the grants approved then less one occurrence for each it held that was unbound since |
| Messages.MessageRoundTrip | crates/stanchion-remote/src/frame.rs:41-109 | a message in range reads back as itself, a null in an optional field as absent, if and only if it has the shape of a request or of a response |
| Messages.ReadIff | crates/stanchion-remote/src/frame.rs:153-174 | exactly the two shapes of JSON-RPC 2.0 are read, each field as what it says, with ids and error codes in range; an object with both shapes or neither is refused for that |
| Frames.Reader.ReadLimited | crates/stanchion-remote/src/frame.rs:183-209 | under every splitting: a line within the limit is read whole, nothing longer than the limit and one buffer is accepted, too long is reported only for lines over the limit |
| Frames.Read | crates/stanchion-remote/src/frame.rs:135-177 | message and remaining bytes are a function of the byte stream alone, unless a line is over the limit |
| Frames.NextLine | crates/stanchion-remote/src/frame.rs:135-177 | of any stream, a blank line counts for nothing and any other is a message or an error of its own kind |
| Frames.Write | crates/stanchion-remote/src/frame.rs:122-130 | one line is appended, or nothing at all when the message is over the limit |
| Frames.NextOfWire | crates/stanchion-remote/src/frame.rs:122-177 | reading a run of written messages gives the first and leaves the bytes of the rest |
| Frames.ReadBack | crates/stanchion-remote/src/frame.rs:122-209 | a run of messages written and read back through buffers of any sizes is the same run, then a clean end |
| HostChannels.HostChannel.NextRequest | crates/stanchion-remote/src/server.rs:187-201 | the oldest request not yet served, or the first to arrive after stray responses |
| HostChannels.HostChannel.CallApplication | crates/stanchion-remote/src/server.rs:209-238 | the reply is that of the first response carrying this call's id; it fails without one exactly when the call cannot be sent, the stream ends or a frame is bad; requests met meanwhile are queued in order |
| HostChannels.CallReadsBack | crates/stanchion-remote/src/server.rs:209-218 | a callback is numbered, named for its capability, and carries the four fields of the call, which read back as that call |
| HostChannels.HostChannel.Handle | crates/stanchion-remote/src/server.rs:252-270 | one request is answered after exactly the callbacks it makes, one fair exchange each, numbered in turn; they account for everything read, sent and queued |
| HostChannels.HostChannel.Respond | crates/stanchion-remote/src/server.rs:257-268 | one request answered: its turn is noted exactly when the response could be sent |
| HostChannels.HostChannel.Serve | crates/stanchion-remote/src/server.rs:252-270 | for every inbound stream and pipe: answered, then in progress, then queued is a prefix of the requests as they arrived, all of them at the end of the stream; the session is a chain of episodes, one a request, each with its own exchanges and response, that accounts for everything read, every write attempted and everything sent; it stops only at a shutdown, the end, a bad frame, or a write that failed |
| HostChannels.AnsweredInOrder | crates/stanchion-remote/src/server.rs:187-238 | the arrival order invariant, extended over what is still unread |
| RemoteClients.RemoteClient.CallHost | crates/stanchion-remote/src/client.rs:390-439 | the first response carrying this call's own id decides: an error is the host's with its message, else the call succeeds iff the result, or null without one, decodes, and with that value; without a response there is an error for its own reason; every write is attempted in order, the request and then one response to each callback read; a failed write or a broken stream is put down to the host being gone when it turns out to have exited, and to the transport otherwise; no reply to an earlier call is taken while ids last |
| RemoteClients.RemoteClient.AnswerCallback | crates/stanchion-remote/src/client.rs:442-484 | one response with the callback's id; the handler sees the call only if it is well formed, allowed and there is a handler |
| RemoteClients.HandlerSeesOnlyAllowed | crates/stanchion-remote/src/client.rs:454-470 | one callback shows the handler nothing outside the allowlist; kept by the client through every call |
| RemoteClients.HandlesTheCall | crates/stanchion-remote/src/client.rs:442-484 | a callback as the host sends it is, as the call it carries, refused for the allowlist, left without a handler, or answered by the handler |
| RemoteClients.ReplyIsWhatTheApplicationMakes | crates/stanchion-remote/src/client.rs:472-483 | the response carries the value, or the error code of a failed request with the message, and the host reads just that back |
| RemoteClients.IdsDistinctIff | crates/stanchion-remote/src/client.rs:395-396 | the ids a client has used for its calls are all different exactly while it has made at most u64::MAX of them |
| Sessions.OneTurnHolder | crates/stanchion-remote/src/client.rs:390-484 | in every state satisfying the invariant exactly one end can move, until every call has returned |
| Sessions.Protocol | crates/stanchion-remote/src/server.rs:187-270 | over every run of both ends: host queue empty, one end to move, no stuck state, each step nearer the end, and finished runs returned for each call the value the handler answered its own request with, or its error's message, callbacks having been put to the application as the calls they are |
| Sessions.Finishes | crates/stanchion-remote/src/client.rs:390-484 | from every such state finitely many steps finish |
| Sessions.RunKeeps | crates/stanchion-remote/src/server.rs:187-270 | every state of every run keeps the invariant and the promised results, although both ends number from 1 |
| Refinements.ServingIsHostRun | crates/stanchion-remote/src/server.rs:187-270 | what the host channel does in serving, when every callback is replied to, is a run of the protocol's host |
| Refinements.EverythingSent | crates/stanchion-remote/src/server.rs:204-207 | when every write goes through, the messages of that run are those the channel sends |
| Refinements.CallIsClientRun | crates/stanchion-remote/src/client.rs:390-439 | a client call that returns is a run of the protocol's client: same traffic, same result |
| Compositions.TwoEndsMeet | crates/stanchion-remote/src/server.rs:187-270 | wherever a client and a host come to a stop, each stepping alone with all the other sent before it, the two make up one run of the protocol from its start to its end, with every call returned as it ought |
| Compositions.ClassesCompose | crates/stanchion-remote/src/client.rs:390-439 | what both classes promise, a channel that serves and a client that makes a script of calls over two first-in-first-out pipes, comes together to one run of the protocol, and to each call returning what its own request comes to when callbacks are answered directly |
| Rocks.VersionsOrdered | crates/stanchion-abi/src/rocks.rs:99-115 | padded comparison is a total preorder: reflexive, reversing, transitive across widths |
| Rocks.CompareIff | crates/stanchion-abi/src/rocks.rs:179-206 | a version is lower than another iff it is so in the first component that differs, numbers by size, texts as a dictionary has them and any text before any number, or in nothing but the revision |
| Rocks.MatchesIff | crates/stanchion-abi/src/rocks.rs:234-253 | what each comparing operator accepts, in terms of that order and of what the requirement spells out |
| Rocks.ExactlyIff | crates/stanchion-abi/src/rocks.rs:164-176 | equality accepts exactly agreement on what the requirement spells out |
| Rocks.CompatibleIff | crates/stanchion-abi/src/rocks.rs:179-206 | ~> v, whatever v and the candidate, accepts exactly: at or above v, the same in every component but the last, there equal or, for a text, a continuation of it; or a prerelease of the next; and nothing when v has no last component or none higher |
| Rocks.TextIsContinued | crates/stanchion-abi/src/rocks.rs:178-195 | ~> 1.beta accepts 1.beta2 and not 1.gamma |
| Rocks.CompatibleAsDescribedIff | crates/stanchion-abi/src/rocks.rs:239-253 | the exact versions v for which ~> v means what its description says, for all-numeric candidates |
| Rocks.Installed | crates/stanchion-abi/src/rocks.rs:438-457 | each listed rock once, at a version listed and none listed higher |
| Requirements.VersionReadsBack | crates/stanchion-abi/src/rocks.rs:131-150 | a version written out parses back as itself |
| Requirements.SplitOperator | crates/stanchion-abi/src/rocks.rs:331-347 | splits off a token of the table with its operator, and no token the piece begins with is longer; nothing exactly when it begins with none |
| Requirements.Parse | crates/stanchion-abi/src/rocks.rs:265-294 | constraints piece by piece, none at all from a piece with an operator and no version |
| Requirements.RequirementReadsBack | crates/stanchion-abi/src/rocks.rs:265-347 | every requirement written out parses back as the same constraints in the same order |
| Requirements.VerifyRocks | crates/stanchion-registry/src/lib.rs:1305-1340 | passes iff no rock is asked for, or each is in the tree at a version its requirement accepts |
| Signatures.EncodeInjective | crates/stanchion-abi/src/signature.rs:155-183 | the encoding of NUL-free paths and 32-byte hashes is unambiguous |
| Signatures.PreimageInjective | crates/stanchion-abi/src/signature.rs:155-183 | equal preimages come from equal file maps |
| Signatures.Compute | crates/stanchion-abi/src/signature.rs:155-183 | fails iff a covered file is unreadable; else hashes of all covered files, folded in path order |
| Signatures.CoversAll | crates/stanchion-abi/src/signature.rs:155-183 | covered is every file but the two kinds of signature, each under its path with the hash of its contents |
| Signatures.EntryLaidOut | crates/stanchion-abi/src/signature.rs:155-183 | an entry is the path, a zero, the 32 bytes of the hash and a zero |
| Signatures.ToHex | crates/stanchion-abi/src/signature.rs:272-279 | the loop renders two lowercase digits a byte |
| Signatures.HexInjective | crates/stanchion-abi/src/signature.rs:272-279 | distinct bytes render differently |
| Signatures.HexReadsBack | crates/stanchion-abi/src/signature.rs:272-279 | rendered bytes spell those bytes, and a text spells them iff it is that rendering but for case |
| Signatures.BareDigestOfHex | crates/stanchion-abi/src/signature.rs:437-441 | normalising a rendered hash, with or without prefix, gives it back |
| Signatures.DenotesIff | crates/stanchion-abi/src/signature.rs:437-441 | two spellings normalise alike iff they denote one hash: in hex of either case, with or without the prefix, amid any whitespace |
| Signatures.RevokesIff | crates/stanchion-abi/src/signature.rs:414-430 | a list refuses a plugin iff some entry denotes its digest or names who signed it |
| Signatures.DigestEntryRefusesItsBuild | crates/stanchion-abi/src/signature.rs:414-430 | adding an entry with a digest anywhere to any list refuses, besides what the list refused, exactly that build, whoever signed it, and what the identity it names signed |
| Locks.PinAcceptsIff | crates/stanchion-registry/src/lock.rs:323-341 | a pin taken of one build accepts another iff roots agree and whatever else it names agrees |
| Locks.PinIsItsDigest | crates/stanchion-registry/src/lock.rs:153-166 | the pin taken of a build is its digest, in lowercase hex with the prefix, and names nothing else |
| Locks.CheckIff | crates/stanchion-registry/src/lock.rs:323-341 | a plugin passes the lockfile iff it is pinned, the pin spells its digest in whatever case, and its signer, issuer and version are those named, if any are; a refusal is for the first mismatch |
| Locks.PinIdentifiesContents | crates/stanchion-registry/src/lock.rs:323-385 | an accepted directory covers the same files with the same hashes, or the preimages are a collision |
| Capabilities.ApproveCapabilities | crates/stanchion-abi/src/callback.rs:251-297 | refuses iff something indispensable is unoffered or denied, or policy grants no table; else exactly the allowed ones in order |
| Capabilities.ApprovedIff | crates/stanchion-abi/src/callback.rs:251-297 | a capability is approved iff declared, offered and allowed, with the allowed parameters |
| Upgrade.Between | crates/stanchion-registry/src/upgrade.rs:224-286 | the review lists exactly the differences there are in what the two manifests declare, each once, in a fixed order: version, entry, then table by table by name |
| Upgrade.OneReview | crates/stanchion-registry/src/upgrade.rs:215-216 | the differences and the order determine the review |
| Upgrade.QuietIffTightens | crates/stanchion-registry/src/upgrade.rs:135-150 | a review does not widen iff the candidate is newer, has the same entry, declares no new capability, dependency or rock, and every table it keeps has the same keys, each value what it was or a list without anything new |
| Upgrade.NarrowsIff | crates/stanchion-registry/src/upgrade.rs:375-405 | parameters are taken for narrowed iff, the reserved key aside, no key came or went and each value is what it was or a list of items that were there |
| Upgrade.NarrowsTransitive | crates/stanchion-registry/src/upgrade.rs:381-405 | narrowing of parameters is transitive |
| Upgrade.UnattendedNeverWidens | crates/stanchion-registry/src/upgrade.rs:224-405 | along any chain of reviews that do not widen, the last manifest tightens the first in that sense: version up, entry fixed, names only fewer, the same keys in each table kept, each value unchanged or a list with items of the first only |
| Upgrade.WithSigners | crates/stanchion-registry/src/upgrade.rs:292-300 | a changed signer widens any review, an unchanged one changes nothing |
| Packages.SafeRelative | crates/stanchion-dist/src/package.rs:338-359 | the component loop refuses any root or parent, and anything with no name in it |
| Packages.RelativeIsClean | crates/stanchion-dist/src/package.rs:332-359 | a path let through has nothing but proper names in it |
| Packages.CleanIsRelative | crates/stanchion-dist/src/package.rs:338-359 | a path of proper names is let through unchanged |
| Packages.Unpack | crates/stanchion-dist/src/package.rs:235-317 | succeeds iff every entry is allowed after those before it, with exactly the archive's files; whatever happens stays inside the destination, each file within its limit but for a byte, and all of it within the total but for that one file |
| Packages.RepackKeepsTree | crates/stanchion-dist/src/package.rs:5-16 | two archives that deliver the same bytes under the same names, in any order, unpack to the same tree |
| Packages.PackUnpacks | crates/stanchion-dist/src/package.rs:155-188 | a packed tree unpacks iff it is within the limits, and is then the same tree |
| Packages.EntryOrderDecides | crates/stanchion-dist/src/package.rs:254-281 | a concrete archive of which one order is accepted and another is not |
| Packages.EveryOrderIff | crates/stanchion-dist/src/package.rs:248-285 | every order of an archive's entries is accepted if and only if this one is, and it has no directory or no more entries than the limit |
| Installs.BestMatch | crates/stanchion-dist/src/index.rs:287-292 | the newest eligible release, the last listed of several equally new, none iff none is eligible |
| Installs.Stage | crates/stanchion-dist/src/install.rs:225-250 | stages the pinned version when one is pinned, else the newest eligible, unless there is none or it cannot be staged; a pinned plugin only at its pinned digest |
| Installs.StageUpgrade | crates/stanchion-dist/src/install.rs:258-266 | the newest eligible release whatever version is pinned, but still only at a pinned digest |
| Installs.StageRelease | crates/stanchion-dist/src/install.rs:269-351 | whatever fails, only the staging entry changes, and it is cleaned up; succeeds iff nothing stands in the way: name, pin, fetch, archive, digest, manifest name and version, else for the first that does; and is then reviewed against what is installed |
| Installs.ValidNameIff | crates/stanchion-abi/src/manifest.rs:195-203 | a usable name is one to 128 ASCII letters, digits, dashes, underscores and dots, and neither `.` nor `..` |
| Installs.Commit | crates/stanchion-dist/src/install.rs:453-490 | passes through exactly the listed directory states under any faults; a pin is returned exactly when clearing, moving aside and placing all work, and then the staged tree is in place |
| Installs.CommitFrame | crates/stanchion-dist/src/install.rs:453-490 | no state of a commit touches another entry |
| Installs.NeverLosesIff | crates/stanchion-dist/src/install.rs:449-490 | the installed tree survives every fault at every step iff it is in place under a name other than its aside name, or there is none |
| Installs.NeitherInPlaceIff | crates/stanchion-dist/src/install.rs:453-475 | a commit of an installed plugin leaves neither tree in place exactly when the old one was moved or cleared away, the new one could not be placed, and the old one not put back |
| Installs.SecondCommitCanLose | crates/stanchion-dist/src/install.rs:453-490 | two faulty commits in a row: the first leaves nothing in place, the second loses the plugin |
| Installs.AsideNamesCollide | crates/stanchion-dist/src/install.rs:454-454 | two valid names with one aside name |
| Installs.SharedAsideIff | crates/stanchion-dist/src/install.rs:454-456 | two plugins share an aside name iff their names differ at most after the last dot; a commit of one then deletes the only copy of the other when that was left aside |
| Installs.SparesIff | crates/stanchion-dist/src/install.rs:453-490 | whatever fails, a commit leaves the tree installed under another name as it is if and only if it stands in none of the commit's own three entries |
| Installs.Discard | crates/stanchion-dist/src/install.rs:493-496 | touches only the staging entry, which is gone exactly when it was there and could be deleted whole |
| Installs.CommittedPinAccepts | crates/stanchion-dist/src/install.rs:453-490 | the recorded pin accepts the staged build iff its signer is the one claimed |
| Installs.CommittedPinAcceptsIff | crates/stanchion-dist/src/install.rs:476-490 | the recorded pin accepts exactly that build, at that version, signed as claimed |
| Installs.UnwideningStageTightens | crates/stanchion-dist/src/install.rs:436-442 | a staged plugin does not widen iff a manifest can be read of what is installed and the staged one asks for nothing more |

## Left out

- Registries.Registry.LoadDir: does not model the caching of rock paths (crates/stanchion-registry/src/lib.rs:457-462) nor manifest discovery itself; an unreadable root, setup or rock listing is one absent input.
- Registries.Registry.Revoke: what the instance answers about the binding is a parameter.
- LuaBackends.LuaBackend.LoadGroup: sandboxes, budgets, module search paths, call guards and async calls are not modelled; creating a state is one answer for a whole load, since it sees nothing but the setup and the rock paths; a panic while `exports` is read ends the whole load, and is not described.
- LuaBackends.LuaBackend.ReloadPlugin: repointing a proxy is modelled by identities, not by Lua metatables; a panic while it builds, which goes on to the caller, is a reload that fails.
- Isolation.FailureIsolatedIff: states poisoned by a call between loads are part of the pool a load finds, not of an operation.
- Frames.Read: after a break of the reader itself only the error is described, not the bytes consumed.
- HostChannels.HostChannel.Serve: the mutex around the channel, poisoning by a panic and the handling of each single method are not modelled, and a callback's failure names its step without the error underneath; the handler is a function of the turns served before.
- RemoteClients.RemoteClient.CallHost: process spawning, signals and clocks; a missed deadline is an event in the stream, killing the child is not described, and its exit status is not part of the error; whether it has exited is an input.
- Sessions.Protocol: assumes reliable pipes, successful writes, no deadline and finitely many callbacks per request; its steps are on values, tied to the classes by `Refinement` and `Composition`.
- LuaValues.KeyOrderSorted: keys that tie in the original order (undecodable strings, dropped keys) are in one fixed order, where the original keeps the order of `pairs`.
- Convert.FunctionCache.LuaToAbi: table identity, metatables and cycles; a table is its finite map of entries, and the queue holds functions only.
- Signatures.Compute: walking the directory is a given list of files; text is its UTF-8 bytes.
- Requirements.Parse: whitespace is ASCII; the raw text kept for display is not.
- Installs.Commit: a rename onto an existing entry fails; the renaming of a directory onto an empty one does not happen here.
- Installs.StageRelease: fetching, permissions and reading manifests are answers of the surroundings; the index and its caching are a given list of releases.
- Packages.Unpack: gzip and tar parsing, modes and owners, non-UTF-8 paths, case-insensitive disks and failing writes.
- Capabilities.ApproveCapabilities: `Rules`, `AllowList` and `Grant` are one decision function; provider registration is a set of offered names.
- Builds without the `signatures` or `luarocks` features: both are taken to be on.
- Manifest validation and TOML parsing, lockfile and revocation file formats, audit and dispatch.
- Semver matching: a requirement is the predicate it denotes.
- WASM execution and its argument conversion, the C interface, the bindings, the site and the UI: translation layers.
- Limits, sanitising and index cache lifetimes: true but easy.
- The reentrancy guard of crates/stanchion-ffi/src/guard.rs: it refuses only immediate re-entry, so the stronger claim for nested handles does not follow.
