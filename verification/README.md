# Nodal Arc: a verified model of the catalog, the resolver and the cluster reader

Nodal Arc resolves a network session out of a catalog of YAML documents and runs it on Kubernetes. This project models, in
Dafny 4.11, the parts of it where correctness spans many steps, and proves what those parts promise.

- **The catalog repository** (`CatalogStore`, `CatalogRuns`, `CatalogRepository`, `GenerationStream`, `CatalogRefs`, `Utf8`).
  A scope is a directory of content-addressed generations and a CURRENT pointer. `CatalogStore` gives the disk and its atomic
  effects, and what a commit interrupted after any of them leaves behind. `CatalogRuns` is the state machine of snapshots,
  units of work, commits, exceptions and process deaths over any number of scopes. `CatalogRepository` holds the classes that
  update the disk, the reference counts and the mutations in place. `Stands` says which state of the machine the objects stand
  for; opening a repository gives a start state, and every public operation is proved to be a step from one state it stands for
  to the next, so what is proved of runs holds of the objects. Storage is an oracle: of
  each effect, those of the exception handlers included, it says whether it works, raises, or raises once it is done.
- **The closure collector** (`CatalogClosure`, over `Digraph`). A depth-first search with an explicit active stack, compared
  with reachability and cycles defined by paths.
- **Uploads** (`CatalogUploads`, `ConfigMaps`). The bounded upload of a closure, its verification from its own bytes, and its
  journey through one ConfigMap per file.
- **Link candidates** (`LinkTopology`, `LinkCandidates`, `LinkBudget`, `FixedInterfaces`). Greedy nearest-N selection, pair
  ownership, the static candidate budget and the allocation of fixed interfaces.
- **Addressing** (`AddressPools`, `Loopbacks`, `Segments`, `HostAttachments`). The pool walk, loopback numbering over any
  sequence of assignments, segment subnets and member addresses, symbolic origination, and host gateways.
- **Graph checks** (`Components`, `RoutingChecks`, `RoutingInstances`). The worklist that splits a graph into components, the
  routing-domain check, the interfaces and adjacencies of a routing instance, and the OSPF backbone check over them.
- **The Kubernetes reader** (`KubeReader`, `StopHandshake`). The LIST-then-WATCH reader against the server's history, and the
  two-thread stop protocol under every interleaving.

`Ordering` (stable sorting, total orders), `Digraph` (paths), `Transitions` (runs of a transition system) and `Wrappers`
(optional values and results) are shared.

Bodies that cannot be seen from the model are parameters: YAML decoding and schema validation are a total function from bytes to
"refused" or "valid, with these references"; pair distances are a map of real ranks; clocks, deadlines and the consumer's stop
flag are a function from the number of the check to its answer. SHA-256 is a constructor, so equal digests mean equal input.

## Where the code and its description differ

- **The pool walk can refuse an address as outside its own pool.** `ipaddress.ip_address` reads a bare integer below 2**32 as
  an IPv4 address, and no IPv6 network contains one. `AddressPools.Allocation` says exactly when: an address is asked for and
  the IPv6 pool's first slot is below 2**32. `AddressPools.OutsidePoolIsReachable` is a pool with free addresses that meets it.
- **Two interfaces can share an address on a segment.** Addresses are kept per node and segment, so a node with two ports on one
  segment gives both the same address. `Segments.InterfacesUnsharedIff` shows this is the only way, and
  `Segments.DoubleBindingIsAccepted` is a session that does it.
- **The priorities of visible_candidates and explicit_pairs can depend on set iteration order.** They are sorted by rank keys
  without a final tie-break. `LinkCandidates.KeyOrderDetermined`: this happens exactly when two pairs share both keys.
  `LinkCandidates.PrioritiesFollowEnumeration` is a session where it happens: node `b-c` of site `a-` and node `c` of site
  `a--b`, in one ground segment, have different runtime ids and the same local id `a--b-c`.
- **A commit that raises may have published.** Cleanup runs inside the try block after CURRENT has moved.
  `CatalogStore.RaisedCommit` says which catalog is current after an exception at each step.
- **A process that dies inside the removal of a dead generation can leave a scope that never opens again.** The removal is
  recursive, and recovery refuses a directory whose documents no longer hash to its name or whose `catalog` directory is gone.
  `CatalogStore.PartlyRemoved`: the scope still opens exactly when `catalog` is there with every document; an emptied
  subdirectory may be gone. `CatalogStore.CrashInRemoval` says it of a commit. `CatalogStore.EmptiedScope` is a scope where it
  happens: after the first commit to a new scope its empty generation is dead, and a process that has removed that
  generation's `catalog`, which held nothing, but not the directory around it leaves a scope that is refused. The other crash
  results below take a removal as one effect.

## Model

| member | source | states |
|---|---|---|
| `CatalogRefs.TextInjective` | lib/nodalarc/catalog_refs.py:200-203 | two references with one canonical text are one reference |
| `CatalogRefs.ParseCanonical` | lib/nodalarc/catalog_refs.py:101-203 | an accepted token is its own canonical spelling and parses again to itself |
| `CatalogRefs.ParseIffGrammar` | lib/nodalarc/catalog_refs.py:101-198 | the parser accepts exactly the tokens of the published JSON-schema pattern: namespace, family, safe components, YAML suffix |
| `CatalogRefs.GrammarParses` | lib/nodalarc/catalog_refs.py:114-181 | a spelling of the pattern parses to the reference it spells |
| `CatalogRefs.PreservedPathInjective` | lib/nodalarc/catalog_closure.py:117-119 | no two references preserve to one path |
| `Utf8.DecodeEncode` | lib/nodalarc/kubernetes_runtime_config.py:374-385 | text survives UTF-8 encoding |
| `Utf8.EncodeDecode` | lib/nodalarc/kubernetes_runtime_config.py:207-226 | bytes that decode strictly come back unchanged |
| `GenerationStream.UnstreamStream` | lib/nodalarc/filesystem_catalog_repository.py:195-203 | the length-prefixed byte stream decodes to the documents it was made from |
| `GenerationStream.StreamInjective` | lib/nodalarc/filesystem_catalog_repository.py:195-203 | equal streams come from equal document lists |
| `GenerationStream.SortedListing` | lib/nodalarc/filesystem_catalog_repository.py:197 | sorting any enumeration of a document map gives the one reference-ordered listing |
| `GenerationStream.GenerationInjective` | lib/nodalarc/filesystem_catalog_repository.py:195-203 | two document maps with one generation name are equal |
| `GenerationStream.CatalogGeneration` | lib/nodalarc/filesystem_catalog_repository.py:195-203 | the digest loop computes the name of the document map, whatever order the documents come in |
| `CatalogClosure.CollectionState.Visit` | lib/nodalarc/catalog_closure.py:450-483 | visiting extends the dependencies-first record by exactly what the reference reaches, or blames the end of a real path that continues the active stack |
| `CatalogClosure.CollectionState.Descend` | lib/nodalarc/catalog_closure.py:485-552 | visits the references of an admitted document under the active stack and records it once they all are, leaving the stack as it found it |
| `CatalogClosure.CollectionState.Admit` | lib/nodalarc/catalog_closure.py:465-539 | reading, checking and validating a new reference give the document's own verdict, whatever was visited before; the preserved-path collision refusal cannot be reached |
| `CatalogClosure.VisitRoots` | lib/nodalarc/catalog_closure.py:615-616 | after all roots the record holds every root and only reachable references |
| `CatalogClosure.CollectReferences` | lib/nodalarc/catalog_closure.py:595-624 | succeeds exactly when everything reachable reads and validates and is on no cycle; then the entries are exactly the reachable set in reference order; a refusal names a reachable offender, a cycle refusal a real closed path, any other the whole way from a root |
| `CatalogClosure.CollectTokens` | lib/nodalarc/catalog_closure.py:595-624 | tokens are all parsed first, and the first that is no reference is named; then as `CollectReferences` |
| `CatalogClosure.Collect` | lib/nodalarc/catalog_closure.py:627-653 | the same for the references of a session root, with the root's own refusals first, and the code of a fault the references really reach |
| `CatalogClosure.ClosureUnique` | lib/nodalarc/catalog_closure.py:595-624 | one view and one root set have one closure, whatever the order or repetition of roots |
| `CatalogClosure.Recollection` | lib/nodalarc/catalog_closure.py:205-234 | collecting again over the captured bytes succeeds with the same entries, bytes and digest |
| `CatalogStore.UpdatedIsUpdate` | lib/nodalarc/filesystem_catalog_repository.py:762-776 | applying distinct mutations one by one is the simultaneous update of the base |
| `CatalogStore.UpdateOrderFree` | lib/nodalarc/filesystem_catalog_repository.py:762-776 | the order mutations were added in does not matter |
| `CatalogStore.NamesInjective` | lib/nodalarc/filesystem_catalog_repository.py:195-212 | a directory name determines the documents under it |
| `CatalogStore.StagingStages` | lib/nodalarc/filesystem_catalog_repository.py:734-776 | staging writes touch only the staging directory and leave there the updated catalog |
| `CatalogStore.CommittedDisk` | lib/nodalarc/filesystem_catalog_repository.py:814-848 | an undisturbed commit leaves the new generation current, the doomed ones gone, and leftovers of earlier commits as they were |
| `CatalogStore.CrashRecovery` | lib/nodalarc/filesystem_catalog_repository.py:545-584 | a commit stopped after any number of its effects, whether or not what it stages would have passed the checks, with the effect in flight torn, recovers to exactly the base catalog or exactly the committed one: one generation, no staging or temporary entry |
| `CatalogStore.IntactIsAccepted` | lib/nodalarc/filesystem_catalog_repository.py:545-584 | what recovery demands of the directories is exactly that the disk is intact |
| `CatalogStore.PartlyRemoved` | lib/nodalarc/filesystem_catalog_repository.py:653-685 | a directory left part way through its removal passes recovery exactly when its `catalog` directory is there and none of its documents is gone |
| `CatalogStore.CrashInRemoval` | lib/nodalarc/filesystem_catalog_repository.py:653-685 | the same for a process that dies inside any removal of a commit |
| `CatalogStore.EmptiedDirectory` | lib/nodalarc/filesystem_catalog_repository.py:169-185 | a scope whose dead empty generation has lost its `catalog` directory is intact otherwise and refused |
| `CatalogStore.EmptiedScope` | lib/nodalarc/filesystem_catalog_repository.py:169-185 | such a scope exists, with one document |
| `CatalogStore.InterruptedRecovery` | lib/nodalarc/filesystem_catalog_repository.py:545-584 | a recovery stopped anywhere and run again ends at the same disk |
| `CatalogStore.RaisedCommit` | lib/nodalarc/filesystem_catalog_repository.py:799-847 | an exception after any effect, whether or not the handlers raise too, leaves an intact disk: the old catalog before CURRENT is replaced, the whole new one after; no other leftover is touched |
| `CatalogRuns.NextKeepsInv` | lib/nodalarc/filesystem_catalog_repository.py:545-848 | every step (snapshot, release, begin, add, abort, refused, raised and finished commit over any leftovers, process death inside a commit, inside a release or between operations, each with recovery) keeps the invariant |
| `CatalogRuns.AcquireCounts` | lib/nodalarc/filesystem_catalog_repository.py:616-631 | one more reader counted keeps the counts equal to the live snapshots |
| `CatalogRuns.DropCounts` | lib/nodalarc/filesystem_catalog_repository.py:638-648 | and so does one released |
| `CatalogRuns.CrashRecovers` | lib/nodalarc/filesystem_catalog_repository.py:545-584 | however far a commit got, admitted or not, what a process death leaves can be recovered into a next state |
| `CatalogRuns.RunInvariant` | lib/nodalarc/filesystem_catalog_repository.py:616-685 | in every state of every run CURRENT names a present generation, every directory hashes to its name, counts equal the live snapshots, and every pinned generation is present |
| `CatalogRuns.SnapshotsAreFrozen` | lib/nodalarc/filesystem_catalog_repository.py:616-651 | while a snapshot lives it reads exactly the bytes it was opened on |
| `CatalogRuns.NextIsSerial` | lib/nodalarc/filesystem_catalog_repository.py:814-848 | each step changes a scope's catalog only by publishing a unit whose base was current and whose revisions all match |
| `CatalogRuns.SerialHistory` | lib/nodalarc/filesystem_catalog_repository.py:814-848 | over every interleaving, process deaths included, the current catalog is the serial replay of the published units |
| `CatalogRuns.ReleaseInsideCommit` | lib/nodalarc/filesystem_catalog_repository.py:653-685 | between naming a generation and replacing CURRENT nothing holds the new one, so a cleanup there would remove it and leave CURRENT naming nothing |
| `CatalogRuns.SoundMeansClosedAndAcyclic` | lib/nodalarc/filesystem_catalog_repository.py:742-760 | a validated catalog resolves every reference within itself or the shipped catalog, and no document reaches itself |
| `CatalogRuns.NoDanglingReferences` | lib/nodalarc/filesystem_catalog_repository.py:742-760 | no run of writes and deletes ever publishes a dangling or circular reference |
| `CatalogRepository.ListDocuments` | lib/nodalarc/filesystem_catalog_repository.py:169-192 | every document of a generation once |
| `CatalogRepository.ValidateRoot` | lib/nodalarc/filesystem_catalog_repository.py:206-212 | the name of the documents exactly when all of them validate |
| `CatalogRepository.ValidateGraph` | lib/nodalarc/filesystem_catalog_repository.py:742-760 | accepts exactly the sound catalogs |
| `CatalogRepository.Open` | lib/nodalarc/filesystem_catalog_repository.py:475-535 | every scope recovered to its CURRENT generation alone, or to the empty catalog where there was none; refused only for a disk recovery cannot accept or a storage fault |
| `CatalogRepository.Repository.OpenScopes` | lib/nodalarc/filesystem_catalog_repository.py:532-535 | the recovery loop over the scopes, stopped at the first refusal |
| `CatalogRepository.Repository.OpeningStands` | lib/nodalarc/filesystem_catalog_repository.py:475-584 | an opened repository stands for a start state of the run machine when the current catalogs it found are sound, new scopes included |
| `CatalogRepository.OpenedInInvariant` | lib/nodalarc/filesystem_catalog_repository.py:475-584 | recovered disks with sound catalogs are in the invariant of runs |
| `CatalogRepository.Repository.Begin` | lib/nodalarc/filesystem_catalog_repository.py:687-698 | a new empty unit on the given base, or on CURRENT through a snapshot of its own: one or two steps of the run machine; an unknown scope is refused |
| `CatalogRepository.Repository.Snapshot` | lib/nodalarc/filesystem_catalog_repository.py:633-636 | a step of the run machine that counts one more reader of CURRENT; an unknown scope is refused and changes nothing |
| `CatalogRepository.Repository.Release` | lib/nodalarc/filesystem_catalog_repository.py:638-651 | a step of the run machine that takes one off the count and removes the generations neither current nor held, all of them unless storage fails |
| `CatalogRepository.Repository.Cleanup` | lib/nodalarc/filesystem_catalog_repository.py:653-685 | removes exactly the dead generations, each only after it hashes to its name |
| `CatalogRepository.Repository.CheckPreconditions` | lib/nodalarc/filesystem_catalog_repository.py:700-732 | passes exactly when every expected revision matches |
| `CatalogRepository.Repository.Stage` | lib/nodalarc/filesystem_catalog_repository.py:826-846 | the staging effects in order; on a fault at most the staging directory is left, when its handler raises too |
| `CatalogRepository.Repository.MoveCurrent` | lib/nodalarc/filesystem_catalog_repository.py:778-812 | names the generation, writes the temporary and replaces CURRENT, or stops after fewer |
| `CatalogRepository.Repository.Publish` | lib/nodalarc/filesystem_catalog_repository.py:778-847 | the disk is exactly some number of effects into the commit, and on a fault what the handlers removed, or could not remove, of its own leftovers |
| `CatalogRepository.Repository.StageAndCheck` | lib/nodalarc/filesystem_catalog_repository.py:829-846 | gives the staged catalog's name when it hashes, validates and is sound; refused only when it does not or storage failed, and then at most the staging directory is left |
| `CatalogRepository.Repository.CommitChecked` | lib/nodalarc/filesystem_catalog_repository.py:829-848 | an invalid catalog or a storage fault before publication changes nothing a reader sees; otherwise an admitted commit as far as it got; staging and temporary names are fresh |
| `CatalogRepository.Repository.CommitUnit` | lib/nodalarc/filesystem_catalog_repository.py:814-848 | unknown scope, stale base and stale revisions are refused exactly when they hold and change no generation; every other outcome is a refusal for an invalid catalog or a storage fault, or an admitted commit as far as it got |
| `CatalogRepository.SettledIsNext` | lib/nodalarc/filesystem_catalog_repository.py:814-848 | whatever a commit of a known scope may do is a step of the run machine |
| `CatalogRepository.CommitIsStep` | lib/nodalarc/filesystem_catalog_repository.py:814-848 | so it keeps the invariant of runs, and the event tells the outcome |
| `CatalogRepository.Repository.Recover` | lib/nodalarc/filesystem_catalog_repository.py:545-584 | leaves CURRENT's generation alone, or the empty catalog where there was no CURRENT; refused only for a disk with a bad directory or a dangling CURRENT, or a storage fault; interrupted, what is left still recovers to that |
| `CatalogRepository.Repository.Bootstrap` | lib/nodalarc/filesystem_catalog_repository.py:559-575 | a scope without CURRENT publishes the empty catalog |
| `CatalogRepository.UnitOfWork.CheckAdd` | lib/nodalarc/filesystem_catalog_repository.py:391-402 | each refusal exactly when it is the first that applies: bad reference, read-only namespace, closed unit, mutation after a session publication, reference mutated twice |
| `CatalogRepository.UnitOfWork.Add` | lib/nodalarc/filesystem_catalog_repository.py:404-442 | a step of the run machine that adds one mutation, or nothing changed; the unit keeps knowing whether it publishes a session |
| `CatalogRepository.UnitOfWork.Commit` | lib/nodalarc/filesystem_catalog_repository.py:444-455 | the unit is closed whatever happens; a closed unit and an empty one are refused; every other commit is the step of the run machine its outcome reports |
| `CatalogRepository.UnitOfWork.Abort` | lib/nodalarc/filesystem_catalog_repository.py:457-459 | a step of the run machine that drops the mutations and closes the unit |
| `CatalogUploads.CheckBounds` | lib/nodalarc/catalog_upload.py:151-206 | passes exactly the roots and files inside every limit with true sizes |
| `CatalogUploads.CheckFiles` | lib/nodalarc/catalog_upload.py:272-290 | passes exactly duplicate-free files whose digests are those of their bytes |
| `CatalogUploads.CollectionDecides` | lib/nodalarc/catalog_upload.py:292-319 | the collected references equal the files' exactly when the files are the root's reachable set, and then the closure is the sorted files |
| `CatalogUploads.Verify` | lib/nodalarc/catalog_upload.py:256-336 | accepts exactly a duplicate-free, digest-correct file set equal to the root's reachable set that matches the selection, within limits |
| `CatalogUploads.EncodeUpload` | lib/nodalarc/catalog_upload.py:213-253 | gives the prepared files unchanged exactly when they are acceptable under their own digest |
| `CatalogUploads.CollectedIsAcceptable` | lib/nodalarc/catalog_upload.py:213-336 | a closure collected from any view is accepted, within limits, from its own bytes alone |
| `ConfigMaps.NamesDiffer` | lib/nodalarc/kubernetes_runtime_config.py:188-192 | the files of one upload get different ConfigMap names |
| `ConfigMaps.MapRoundTrip` | lib/nodalarc/kubernetes_runtime_config.py:188-386 | a UTF-8 file encoded, stored and decoded is the same entry, under a name of 1 to 63 characters |
| `ConfigMaps.DecodeItems` | lib/nodalarc/kubernetes_runtime_config.py:413-438 | refuses exactly when an object is malformed or two share a name or a reference |
| `ConfigMaps.DecodeUpload` | lib/nodalarc/kubernetes_runtime_config.py:400-445 | the carried files, each once, in reference order |
| `ConfigMaps.UploadRoundTrip` | lib/nodalarc/kubernetes_runtime_config.py:195-445 | the stored objects listed in any order are readable and give back the files |
| `ConfigMaps.ReadBack` | lib/nodalarc/kubernetes_runtime_config.py:400-445 | decoding a stored upload returns that upload |
| `LinkTopology.SelectNearest` | lib/nodalarc/link_rule_candidates.py:130-145 | the degree-counting loop is the greedy selection |
| `LinkTopology.GreedyTakes` | lib/nodalarc/link_rule_candidates.py:130-145 | a ranked pair is taken exactly when both ends still have room among the earlier takings |
| `LinkTopology.GreedyUnique` | lib/nodalarc/link_rule_candidates.py:130-145 | that condition determines the selection |
| `LinkTopology.GreedyBound` | lib/nodalarc/link_rule_candidates.py:130-145 | the selection is at most n per node of an endpoint set that meets every pair |
| `LinkCandidates.PairsJoinSides` | lib/nodalarc/link_rule_candidates.py:58-147 | whatever the topology, every pair of a rule joins its two endpoint sets |
| `LinkCandidates.NearestSelects` | lib/nodalarc/link_rule_candidates.py:119-147 | nearest-N said of sets: a pair is selected exactly when both ends have fewer than n closer selected pairs; a skipped pair has an end with exactly n closer ones |
| `LinkCandidates.NearestDegree` | lib/nodalarc/link_rule_candidates.py:119-147 | no node has more than n links |
| `LinkCandidates.NearestIs` | lib/nodalarc/link_rule_candidates.py:119-147 | the outcome depends only on the set of pairs and the ranks |
| `LinkCandidates.KeyOrderDetermined` | lib/nodalarc/link_rule_candidates.py:107-112 | the other topologies' order depends only on the set of pairs exactly when no two pairs share their keys |
| `LinkCandidates.PrioritiesFollowEnumeration` | lib/nodalarc/resolve_session.py:4019-4029 | two ground nodes with legal names, different runtime ids and one rank key, whose links are listed in the order they are enumerated in |
| `LinkCandidates.ApplyStaticTopology` | lib/nodalarc/link_rule_candidates.py:99-150 | the rule's pairs, each once, in the topology's order; refused exactly when ranks are missing |
| `LinkCandidates.ClaimPairs` | lib/nodalarc/link_rule_candidates.py:188-222 | priorities 0 to k-1; a pair another rule owns is refused; the repeated-pair refusal cannot be reached |
| `LinkCandidates.Generate` | lib/nodalarc/link_rule_candidates.py:153-223 | succeeds exactly when every enabled rule can be generated and no pair belongs to two rules |
| `LinkBudget.EnforceDeclaredBounds` | lib/nodalarc/resolve_session.py:3464-3510 | passes exactly when every static bound and their sum are within limits |
| `LinkBudget.EnforceCandidateLimits` | lib/nodalarc/resolve_session.py:3513-3539 | passes exactly when the generated counts are within limits |
| `LinkBudget.BoundDominates` | lib/nodalarc/resolve_session.py:3464-3510 | a rule never produces more pairs than its static bound, overlapping endpoint sets included |
| `LinkBudget.BudgetSuffices` | lib/nodalarc/resolve_session.py:3464-3539 | once the static check passes, the check after generation cannot refuse |
| `FixedInterfaces.EligibleMeans` | lib/nodalarc/resolve_session.py:3290-3321 | an interface is eligible exactly when it is ISL-named and backed by a terminal the rule matches on a side with the node |
| `FixedInterfaces.AllocateAll` | lib/nodalarc/resolve_session.py:3336-3397 | the claiming loop is first-free assignment in request order, refused at the first request with nothing free |
| `FixedInterfaces.AssignSafe` | lib/nodalarc/resolve_session.py:3336-3397 | every claim is eligible and no interface of a node is claimed twice |
| `FixedInterfaces.RefusesExactly` | lib/nodalarc/resolve_session.py:3336-3397 | with eligible sets pairwise equal or disjoint, allocation refuses exactly when some set is asked for more than it holds |
| `FixedInterfaces.CapacityNeverRefuses` | lib/nodalarc/resolve_session.py:3591-3618 | every allocated interface passes the later capacity check |
| `AddressPools.AllocatePool` | lib/nodalarc/resolve_session.py:2186-2229 | the walk gives the first `count` free slots, or the refusal, exactly by the four conditions |
| `AddressPools.AllocationIsGood` | lib/nodalarc/resolve_session.py:2204-2229 | allocated addresses ascend, lie in the pool, avoid the reserved ones and the ends of a host-length pool larger than two, and no smaller free slot is passed over |
| `AddressPools.FreeAre` | lib/nodalarc/resolve_session.py:2204-2229 | the free slots are exactly the unreserved strides, each once, ascending |
| `AddressPools.SlotContained` | lib/nodalarc/resolve_session.py:2220-2225 | every walked address is in the pool unless the pool starts below 2**32 in IPv6, and then the first is not |
| `AddressPools.OutsidePoolIsReachable` | lib/nodalarc/resolve_session.py:2220-2225 | an IPv6 pool with free addresses that is refused as outside itself |
| `Loopbacks.NextHost` | lib/nodalarc/resolve_session.py:2157-2164 | each step of the generator yields the next free host address, or the pool is used up |
| `Loopbacks.NumberPlaced` | lib/nodalarc/resolve_session.py:1930-1957 | placed nodes take free addresses in id order; refused exactly when there are fewer free than placed nodes |
| `Loopbacks.Assign` | lib/nodalarc/resolve_session.py:1996-2080 | selected nodes take the pooled families in node order, everything else is kept; refused exactly when nothing matches or a pool refuses |
| `Loopbacks.GrantIsFresh` | lib/nodalarc/resolve_session.py:2002-2048 | a new address is in its pool, off every node outside the selection, and no other selected node's |
| `Loopbacks.AssignedKeepsUnshared` | lib/nodalarc/resolve_session.py:1996-2080 | an assignment never makes two nodes share a loopback |
| `Loopbacks.FillDefaults` | lib/nodalarc/resolve_session.py:2103-2138 | the k-th routed satellite without IPv4 takes the k-th free host address; refused exactly when they run out |
| `Loopbacks.DefaultsKeepUnshared` | lib/nodalarc/resolve_session.py:2103-2138 | defaults only add IPv4 where a routed satellite has none, and share nothing |
| `Loopbacks.RoundsHold` | lib/nodalarc/resolve_session.py:1990-2080 | after any number of assignments nothing is shared, and each address is from the last assignment that pools the family and selects the node, else the original |
| `Loopbacks.ApplyAddressing` | lib/nodalarc/resolve_session.py:1990-2100 | the numbered session, or exactly the refusal the assignments, the defaults or an unnumbered router call for |
| `Loopbacks.ResolveLoopbacks` | lib/nodalarc/resolve_session.py:1930-2183 | over both passes no two nodes share an IPv4 or an IPv6 loopback; each address is from the last assignment that pools the family and selects the node; without one, IPv6 is the node's own and a placed node has none, and IPv4 is a placed node's free default address, a routed satellite's default, or the node's own |
| `Segments.SegmentKeys` | lib/nodalarc/resolve_session.py:1886-1888 | every joined key once, in key order |
| `Segments.OriginationEntries` | lib/nodalarc/resolve_session.py:1843-1867 | refused exactly when a named segment is not joined |
| `Segments.Ipv6Keys` | lib/nodalarc/resolve_session.py:1889-1891 | exactly the keys some member originates into IPv6 |
| `Segments.AllocateSubnets` | lib/nodalarc/resolve_session.py:1892-1904 | consecutive subnets in key order; refused exactly when the pool has too few |
| `Segments.SubnetsDisjoint` | lib/nodalarc/resolve_session.py:1892-1904 | subnets of different keys lie in the pool and do not meet |
| `Segments.PlanSubnets` | lib/nodalarc/resolve_session.py:1892-1904 | at most 4096 segments; the IPv6 pool never runs out first |
| `Segments.NumberMembers` | lib/nodalarc/resolve_session.py:1913-1928 | consecutive host addresses along the sorted members; refused exactly over 254 entries |
| `Segments.DealtIsAddressed` | lib/nodalarc/resolve_session.py:1905-1928 | every member has an address in its subnet, routed before hosts and by id, with one host number in both families |
| `Segments.AllocateSegments` | lib/nodalarc/resolve_session.py:1870-1968 | refused exactly when a name is not joined, there are more than 4096 segments, or a segment has more than 254 entries; otherwise a sound plan: subnets for exactly the joined keys, IPv6 for exactly the originated ones, disjoint, every member addressed |
| `Segments.PortsUnique` | lib/nodalarc/resolve_session.py:1892-1928 | no two members of any segments share an address in either family |
| `Segments.InterfacesUnsharedIff` | lib/nodalarc/resolve_session.py:1934-1945 | every interface has its own address exactly when no node puts two ports on one segment |
| `Segments.DoubleBindingIsAccepted` | lib/nodalarc/resolve_session.py:1906-1945 | a router with two ports on one segment meets every condition of the allocation |
| `Segments.LookupsFound` | lib/nodalarc/resolve_session.py:1971-1987 | no origination lookup misses its subnet |
| `Segments.ResolveOrigination` | lib/nodalarc/resolve_session.py:1971-1987 | the targets' prefixes in order of first mention, each once, in each family |
| `HostAttachments.NetworkIsSubnet` | lib/nodalarc/resolve_session.py:2706-2714 | an allocated address names its segment's subnet |
| `HostAttachments.RouterPorts` | lib/nodalarc/resolve_session.py:2671-2682 | every address a router holds on a segment, by router id |
| `HostAttachments.FirstIsGateway` | lib/nodalarc/resolve_session.py:2705-2719 | the first listed port on a host's network is the lowest router id on the host's own segment |
| `HostAttachments.SegmentIpv6` | lib/nodalarc/resolve_session.py:1870-1883 | a member has IPv6 exactly when its segment is originated into IPv6 |
| `HostAttachments.Attach` | lib/nodalarc/resolve_session.py:2687-2740 | one host: refused exactly without a segment on the ground or without a router on its segment; a gateway without IPv6 cannot be met |
| `HostAttachments.DeriveAttachments` | lib/nodalarc/resolve_session.py:2655-2741 | succeeds only with every host attached to the gateway of its own segment and no host without a segment on the ground; a refusal names a stranded host |
| `Components.Walk` | lib/nodalarc/session_validator.py:119-131 | one walk finds everything its start reaches and nothing else |
| `Components.Split` | lib/nodalarc/session_validator.py:116-133 | the parts are exactly the reachability classes, whichever starts are picked; at most one exactly when the graph is connected |
| `RoutingChecks.CandidateNeighbors` | lib/nodalarc/session_validator.py:402-407 | neighbours are exactly the ends of a candidate, both ways |
| `RoutingChecks.SiteNeighbors` | lib/nodalarc/session_validator.py:216-236 | neighbours are exactly the other wired nodes of the same site |
| `RoutingChecks.CheckDomain` | lib/nodalarc/session_validator.py:98-155 | no report exactly when the domain is connected; otherwise its islands, each once |
| `RoutingChecks.BackbonePairs` | lib/nodalarc/resolve_session.py:2960-2975 | the links with a backbone interface at both ends, whose ends are all backbone routers |
| `RoutingChecks.BackboneParts` | lib/nodalarc/resolve_session.py:2960-2988 | the backbone's islands; one part exactly when it is whole |
| `RoutingChecks.CheckInstance` | lib/nodalarc/resolve_session.py:2912-2999 | no problem exactly when there is one area, or the backbone exists, every other area shares a router with it, and it is whole; otherwise the problems that hold |
| `RoutingInstances.DomainInterfaces` | lib/nodalarc/models/resolved_session.py:1243-1314 | the domains each interface runs, exactly: those shared over its links, or what its last segment decides |
| `RoutingInstances.RunsOwn` | lib/nodalarc/models/resolved_session.py:1243-1314 | a router runs a domain on an interface only if it participates in it |
| `RoutingInstances.InstanceLinks` | lib/nodalarc/models/resolved_session.py:1069-1124 | exactly the candidates with an interface in the instance at both ends and the pairs of segment members in it |
| `RoutingInstances.FixedLinkIff` | lib/nodalarc/models/resolved_session.py:1069-1124 | a fixed link that no boundary crosses, on interfaces of no segment, is an adjacency of exactly the domains both ends participate in |
| `RoutingInstances.LinksAreResolved` | lib/nodalarc/models/resolved_session.py:1036-1124 | every end of every adjacency is a participant on interfaces it has an area for, so no lookup of the OSPF check misses |
| `RoutingInstances.OneAreaEach` | lib/nodalarc/resolve_session.py:2932-2959 | with one area for each router the check passes exactly when there is one area |
| `RoutingInstances.CheckOspf` | lib/nodalarc/resolve_session.py:2912-2999 | from the session: no lookup misses, and no problem exactly when all routers of the instance have one area |
| `KubeReader.Follow` | lib/nodalarc/kube_watch.py:107-123 | one set per change, each the server's at the next version; bookmarks yield nothing |
| `KubeReader.VersionsNeverGoBack` | lib/nodalarc/kube_watch.py:97-139 | versions never go backwards across lists and watches |
| `KubeReader.ListThenWatch` | lib/nodalarc/kube_watch.py:95-139 | every set yielded is the server's at some version, none skipped or repeated within a watch, until a stop check or a refusal; at least one set |
| `StopHandshake.StepKeepsInv` | lib/nodalarc/kube_watch.py:156-208 | every step of either thread keeps the handshake invariant |
| `StopHandshake.NoReadOutlivesCleanup` | lib/nodalarc/kube_watch.py:61-73 | in every interleaving, a response the worker can be blocked on after the cleanup has been shut down |
| `StopHandshake.AtMostOneLateResponse` | lib/nodalarc/kube_watch.py:97-139 | after the stop flag is set at most one more response is opened |
| `StopHandshake.StoppedWorkerEnds` | lib/nodalarc/kube_watch.py:172-208 | after the stop flag is set the worker takes at most seven more steps |

## Left out

- YAML decoding, schema validation and the document models: a total function from bytes to a refusal or a list of references.
- SHA-256 and JSON text: digests are constructors, injective on their input.
- Symbolic links, path containment, fsync, directory pruning and permissions: storage is atomic create, rename and remove.
- CatalogRepository.Repository.Bootstrap: the crash lemmas cover commits; a crash while the empty catalog is first created is only covered up to recovery starting over.
- CatalogRuns.RunInvariant: a snapshot finalizer never runs inside a commit, since the repository lock is held; `CatalogRuns.ReleaseInsideCommit` shows what would follow otherwise.
- CatalogRuns.CrashRecovers: the removal of a dead generation is one effect, whether a death or an exception ends it; `CatalogStore.CrashInRemoval` says what a death inside it does.
- CatalogStore.CrashRecovery: the same.
- CatalogRepository.Open: roots that overlap, are links or hold unexpected entries are refused by the source before recovery; the model starts from disks.
- CatalogClosure.CollectReferences: on a validation failure the source's evidence names the offending reference inside the document; the model's names the document.
- CatalogRepository.Repository.OpeningStands: recovery does not check reference graphs, so a scope whose current catalog was unsound already stands for no state of the run machine.
- CatalogRepository.UnitOfWork.Commit: the snapshot it opens on its base outlives the call and is released by its own finalizer, which is a separate step of the run.
- RoutingInstances.CheckOspf: which area the assignment gives each router is a parameter; interfaces are kept by node and name and listed in no order.
- StopHandshake.NoReadOutlivesCleanup: shared accesses are sequentially consistent; the queue between the threads and the event loop is not modelled.
- KubeReader.ListThenWatch: assumes the server delivers changes in order from the listed version and lists nothing older than the last event seen.
- ConfigMaps.DecodeItems: fields are typed, so refusals of values of the wrong JSON type are not modelled.
- Link delays, terminal ranges, orbital mechanics and pair distances: ranks are given numbers.
- Address pools given as text: a pool is already a masked network.
- FRR templates, runtime-support tables, the operator, the HTTP services, the command line and the frontend: they would only add easy members.
