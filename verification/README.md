# Gloo control plane: a Dafny model

This project models the parts of the Gloo control plane whose guarantees span many steps, and proves those guarantees for
every input, every run or every interleaving. `dafny verify dfyconfig.toml` checks everything.

| area | files | main results |
|---|---|---|
| Proxy reconciliation | `Sources`, `StableSort`, `ProxyModel`, `Reporting`, `Reconciler`, `LastKnownGood`, `ReconcileIdempotence`, `ReconcileLimits`, `ValidationBlame`, `ProxyReconciler` | every name is at its last good version after every round; no duplicate name, sorted order, in every written proxy; a repeated round is a no-op under an exact condition; an error removes everything that shares a source |
| Cert rotation | `CertRotation`, `RotationProtocol` | every pod trusts every pod in every interleaving; the grace waits are exactly what is needed |
| Route delegation | `RouteDelegation`, `RouteChain`, `RouteChildren` | termination on cyclic graphs, one node per reachable route, cyclic errors exactly when the reachable part is no tree, what every children map holds |
| Route attachment | `Hostnames`, `Attachment`, `Indexers` | attached to exactly the right listeners or exactly one error; hostname intersection sound, and exact under an if-and-only-if condition; index queries equal full scans |
| Sync loop and status queue | `SyncLoop`, `QueueDrops`, `StatusSyncer`, `StatusHistory` | no lost wakeup; exactly when an item is dropped; every report meets the registry queued under its id; exactly when a report is applied |
| Status building | `Conditions`, `StatusBuilder` | mandatory conditions once, transition times kept exactly when the status is unchanged, rebuilding is a fixpoint |
| Function discovery | `Discovery`, `DetectionTokens` | one live updater per key after every update; token conservation in every interleaving, and exactly which tokens come back |
| Test summary | `TestTrie`, `TestSummary` | the selected events are exactly the first events of the leaf test names |

Each imperative operation is a method proved against a function (or a predicate on its result), and the promises are lemmas
about that function. Go maps that are iterated in random order are sequences of entries in arbitrary order. Errors are
`Result` and `Option` values. `Common` and `Sequences` hold what several modules share.

Functions that model a piece of code are pinned by lemmas that say what they compute from the fields of their input, or by
position (`Sequences.FilterIsExact`), without going through the function's own steps.

## What the model shows about the code

These follow from the code as it is; each has a lemma.

- Without source stability a rejected stored object and an accepted desired one can share a name, and the written proxy then
  has it twice; `DuplicateNamesIff` says exactly when, `NameIsWrittenTwice` gives the run.
- Matched listeners of a hybrid listener may share a matcher: the translator appends one per matched gateway without
  comparing (projects/gateway/pkg/translator/hybrid_translator.go:86-143). The transition then looks only at the last stored
  one, so a rejected virtual host of an earlier one is lost (`RejectedHostsKeptIff`, `ShadowedHostIsLost`), and a second
  round may drop what the first one kept (`TransitionIdempotentIff`, `ShadowingBreaksIdempotence`).
- A secret replaced outright because its certificate is no longer usable is never trusted by a pod that holds an older
  version (`ReplacementIsSafeIffUnheld`). Rotation proper never breaks trust.
- The visited set of delegation is shared by the whole traversal, so a diamond, not only a cycle, records a cyclic reference
  error (`NoCyclicErrorIffTree`).
- On a wildcard listener, a strictly broader route wildcard (without the listener's own) and a non-nil empty hostname list
  lose hosts; everything else is exact (`IntersectIsExactIff`). The Gateway API asks for the intersection.
- The target index and the parentRef scan disagree for a gateway without a namespace, and the grant index for a referring
  object without one (`TargetIndexIsExact`, `FromIndexIsExact`); stored objects always have one.
- The branch of `Enqueue` commented as never happening is reachable; `DropsNewIff` says exactly when. It takes two
  overlapping callers (`ExclusiveNeverDrops`, `OverlappingCallersDrop`). No wakeup is lost either way.
- Status reports are applied neither at most once nor in order: a handled iteration is never forgotten, so a repeated or a
  superseded report is applied again until its proxy is queued anew (`IterationsAreKept`, `AppliedIff`,
  `OldReportInRunAppliedIff`). The clean-up of registries never removes one (`StatusSyncer.RunKeepsInv`), and a report
  without the sync-id annotation is handled under the id of the report before it (`UnstampedReportTakesPreviousId`).
- A type reported twice that the resource already carries shows up twice in the built status
  (`BuiltTypesAreDistinctIff`).
- A route without parentRefs gets its parent statuses in the order in which a Go map happens to be enumerated, so the
  order-sensitive comparison before the write (projects/gateway2/proxy_syncer/proxy_syncer.go:284-289) can see a change where
  there is none (`ParentStatusesAreFixpoint`).
- Cluster names join name and namespace with an underscore. An upstream without a namespace, or a namespace with an
  underscore, can make two upstreams share a key, hence one updater (`SharedClusterNameIff`, `UnnamespacedCanShare`,
  `OneUpdaterPerUpstreamIff`); Kubernetes namespaces rule that out (`NamespacedNeverShare`).
- A detection whose receiver leaves before it sends, which takes a cancelled context, blocks for ever and keeps its token
  (`TokenComesBackIff`, `ATokenCanBeLost`); once all tokens are lost, and only then, no detection can start again
  (`DetectionStopsIff`).

## Model

| member | source | states |
|---|---|---|
| `Sources.AllSourcesAccepted` | projects/gateway/pkg/reporting/check_source_reports.go:11-27 | an object is accepted iff none of its source resources is in error; fails iff the metadata does not parse |
| `Sources.AcceptedIff` | projects/gateway/pkg/reporting/check_source_reports.go:11-27 | by the fields: accepted iff no source, of static or struct metadata, has a report with an error under its kind, name and namespace |
| `Sources.SameKeyIff` | projects/gateway/pkg/translator/config_source.go:106-125 | two source references are to one resource iff kind, name and namespace agree |
| `Sources.CollectByVerdict` | projects/gateway/pkg/reconciler/proxy_reconciler.go:82-104 | the scan over listeners or virtual hosts collects exactly those with the verdict, in order, and fails iff some metadata does not parse |
| `Sources.PickMembers` | projects/gateway/pkg/reconciler/proxy_reconciler.go:82-104 | membership in the collected list, both directions |
| `StableSort.SortIsStable` | projects/gateway/pkg/reconciler/proxy_reconciler.go:247-249 | the sort by name orders, permutes and keeps the order of equal names |
| `StableSort.LeIsLexicographic` | projects/gateway/pkg/reconciler/proxy_reconciler.go:247-249 | the order is Go's: a prefix first, otherwise the smaller character at the first difference |
| `StableSort.StableSortUnique` | projects/gateway/pkg/reconciler/proxy_reconciler.go:221-223 | any stable sort by name computes this one, so nothing depends on the library's algorithm |
| `StableSort.SortAbsorbs` | projects/gateway/pkg/reconciler/proxy_reconciler.go:332-355 | sorting part of the input beforehand makes no difference |
| `Reporting.GetListenerLevelErrors` | projects/gateway/pkg/reporting/add_proxy_validation_result.go:147-184 | the listener's errors and those of its sub-listeners and TCP hosts, virtual hosts excluded |
| `Reporting.ListenerErrorsAreExact` | projects/gateway/pkg/reporting/add_proxy_validation_result.go:147-184 | an error string is collected iff it stands in the listener's errors, its HTTP or TCP report, a TCP host, or an entry of its hybrid or aggregate report |
| `Reporting.GetVirtualHostLevelErrorsAndWarnings` | projects/gateway/pkg/reporting/add_proxy_validation_result.go:195-207 | a virtual host's own errors followed by those of every route |
| `Reporting.FindingsAreFaithful` | projects/gateway/pkg/reporting/add_proxy_validation_result.go:117-144 | what is charged for a listener or virtual host is exactly what its report says about it, errors and warnings, under its metadata |
| `Reporting.MapMatched` | projects/gateway/pkg/reporting/add_proxy_validation_result.go:57-60 | the map by route config name holds, for each name, the last matched listener with it |
| `Reporting.ResourceReports.AddResult` | projects/gateway/pkg/reporting/add_proxy_validation_result.go:117-144 | errors and warnings are charged on every source, and it fails iff the metadata does not parse or a source has no report |
| `Reporting.ResourceReports.AddHybridReport` | projects/gateway/pkg/reporting/add_proxy_validation_result.go:56-83 | every virtual host of every reported matched listener is charged; fails iff an entry does not fit the listener or a source is missing |
| `Reporting.ResourceReports.AddAggregateReport` | projects/gateway/pkg/reporting/add_proxy_validation_result.go:85-110 | the same through the references of the filter chains |
| `Reporting.ResourceReports.AddProxyValidationResult` | projects/gateway/pkg/reporting/add_proxy_validation_result.go:27-115 | succeeds iff the report fits the proxy and every source has a report, and then the reports are the old ones with all findings charged |
| `Reporting.BlameIsExact` | projects/gateway/pkg/reporting/add_proxy_validation_result.go:22-26 | string by string: afterwards a resource's report says an error or warning iff it did before or an item generated from it says it |
| `ValidationBlame.ValidationIsExact` | projects/gateway/pkg/reporting/add_proxy_validation_result.go:27-115 | the same told by the shapes of report and proxy alone, for listeners and virtual hosts of HTTP, hybrid and aggregate listeners |
| `ValidationBlame.SaidIsBlamed` | projects/gateway/pkg/reporting/add_proxy_validation_result.go:27-115 | the findings on a resource are exactly what the report says, at some location, about an item generated from it |
| `ValidationBlame.FitsIff` | projects/gateway/pkg/reporting/add_proxy_validation_result.go:42-110 | the shape of a report is accepted iff there is one report per virtual host of the listener, matched listener or chain it is about |
| `Reconciler.ValidHostsFromHttpListener` | projects/gateway/pkg/reconciler/proxy_reconciler.go:234-252 | the accepted virtual hosts, sorted; fails iff metadata is malformed |
| `Reconciler.StripListener` | projects/gateway/pkg/reconciler/proxy_reconciler.go:170-219 | the per-type stripping of one listener, HTTP, hybrid, aggregate or TCP |
| `Reconciler.StripInvalidListenersAndVirtualHosts` | projects/gateway/pkg/reconciler/proxy_reconciler.go:149-232 | a fresh proxy holding the stripped listeners, the generated one unchanged; fails iff metadata is malformed |
| `Reconciler.CopyRejectedVirtualHosts` | projects/gateway/pkg/reconciler/proxy_reconciler.go:341-357 | the rejected stored virtual hosts are grafted onto the desired ones, sorted |
| `Reconciler.GraftHybrid` | projects/gateway/pkg/reconciler/proxy_reconciler.go:299-317 | grafting under equal matchers of a hybrid listener |
| `Reconciler.TransitionProxy` | projects/gateway/pkg/reconciler/proxy_reconciler.go:260-339 | the desired proxy is overwritten with the transition of its listeners; fails iff stored metadata is malformed |
| `LastKnownGood.GraftKeepsLastGood` | projects/gateway/pkg/reconciler/proxy_reconciler.go:254-259 | the graft maps each name to its stored version if rejected, to the desired one if accepted, stated by lookups only; names stay distinct and sorted |
| `LastKnownGood.RoundKeepsLastGood` | projects/gateway/pkg/reconciler/proxy_reconciler.go:149-357 | one round from any well-stored proxy or none: listeners, and virtual hosts inside accepted HTTP and hybrid listeners, are at their last good version, everything else is as desired, and an aggregate listener keeps its resources and chains with the accepted references; under a matcher that repeats, the stored version is that of the last stored matched listener with it |
| `LastKnownGood.StrippedChainIsGood` | projects/gateway/pkg/reconciler/proxy_reconciler.go:195-217 | a filter chain keeps matcher and options, and as references exactly the names of its accepted virtual hosts, sorted |
| `LastKnownGood.EveryRoundKeepsLastGood` | projects/gateway/pkg/reconciler/proxy_reconciler.go:50-80 | the same after every round of every run, with failed rounds and removed proxies in between |
| `LastKnownGood.EveryWrittenProxyIsWellStored` | projects/gateway/pkg/reconciler/proxy_reconciler.go:254-339 | every proxy written in any run has distinct listener names, distinct virtual host names per listener or matcher, both sorted |
| `LastKnownGood.DuplicateNamesIff` | projects/gateway/pkg/reconciler/proxy_reconciler.go:321-334 | without source stability, names are distinct iff no rejected stored object shares its name with a surviving desired one |
| `ReconcileLimits.NameIsWrittenTwice` | projects/gateway/pkg/reconciler/proxy_reconciler.go:321-334 | a two-round run that writes one name twice |
| `ReconcileLimits.RejectedHostsKeptIff` | projects/gateway/pkg/reconciler/proxy_reconciler.go:299-317 | an accepted hybrid listener keeps every rejected virtual host stored under a matcher iff the last stored matched listener with that matcher has them all |
| `ReconcileLimits.DistinctMatchersLoseNothing` | projects/gateway/pkg/reconciler/proxy_reconciler.go:299-317 | with distinct stored matchers every rejected virtual host is kept |
| `ReconcileLimits.ShadowedHostIsLost` | projects/gateway/pkg/reconciler/proxy_reconciler.go:307-312 | a two-round run in which the last good version of a virtual host is lost under a repeated matcher |
| `ReconcileIdempotence.TransitionIdempotentIff` | projects/gateway/pkg/reconciler/proxy_reconciler.go:260-339 | transition with the same desired proxy and reports is idempotent over every stored proxy, order included, iff nothing is in error or the last matched listener with each HTTP matcher is HTTP |
| `ReconcileIdempotence.ShadowingBreaksIdempotence` | projects/gateway/pkg/reconciler/proxy_reconciler.go:307-313 | when that last one is TCP, a stored proxy over which the second transition drops what the first one kept |
| `ReconcileIdempotence.ReconcileIdempotentIff` | projects/gateway/pkg/reconciler/proxy_reconciler.go:149-357 | a second round with the same input writes what is stored, over every store, iff nothing is in error or the accepted desired listeners meet that condition |
| `ProxyReconciler.ProxyStore.ReconcileProxy` | projects/gateway/pkg/reconciler/proxy_reconciler.go:50-143 | validation, stripping and transition in sequence; it succeeds iff validation, the generated metadata and the stored metadata are all in order, and otherwise leaves the store untouched |
| `ProxyReconciler.ChainKeepsAccepted` | projects/gateway/pkg/reconciler/proxy_reconciler.go:195-217 | an aggregate filter chain keeps exactly the references to accepted virtual hosts |
| `ProxyReconciler.StripIsFree` | projects/gateway/pkg/reconciler/proxy_reconciler.go:145-232 | nothing generated from an errored resource is left in the stripped proxy |
| `ProxyReconciler.ErrorsStripEverySharer` | projects/gateway/pkg/reporting/add_proxy_validation_result.go:27-144 | an error on a listener, a virtual host or a route removes the item and everything sharing one of its sources, for HTTP, hybrid and aggregate listeners |
| `CertRotation.ParseMakeRoundTrip` | jobs/pkg/kube/secret.go:222-235 | storing and parsing a secret is lossless iff coinciding file names carry equal bytes |
| `CertRotation.MakeParseRoundTrip` | jobs/pkg/run/run.go:153-164 | parsing and storing gives the stored data back |
| `CertRotation.CheckExistingCerts` | jobs/pkg/kube/secret.go:62-93 | when the secret is usable, when it is expiring, both directions |
| `CertRotation.WaitGracePeriod` | jobs/pkg/kube/secret.go:198-220 | the wait settles iff the ticker passes the end before the context is done |
| `CertRotation.RotateCerts` | jobs/pkg/kube/secret.go:145-195 | writes exactly a prefix of the three planned versions, and succeeds iff all three were written |
| `CertRotation.WrittenEntries` | jobs/pkg/kube/secret.go:155-186 | the three versions entry by entry: bundle grown, then certificate and key switched together, then only the new CA |
| `CertRotation.Run` | jobs/pkg/run/run.go:77-126 | keeps, rotates or creates, each exactly under its condition, and what is stored in each case |
| `CertRotation.CreatedEntries` | jobs/pkg/run/run.go:94-103 | a created secret holds the key, the certificate and the CA under their own files and nothing else |
| `RotationProtocol.NextKeepsInv` | jobs/pkg/kube/secret.go:145-195 | every write, wait, cancellation, crash, restart and pod step keeps the trust invariant |
| `RotationProtocol.CreationStartsProtocol` | jobs/pkg/run/run.go:86-107 | a first installation is of one generation, trusts itself and starts the protocol |
| `RotationProtocol.RotationNeverBreaksTrust` | jobs/pkg/kube/secret.go:131-195 | in every interleaving, for any number of pods, every held server certificate is issued by a CA in every held bundle, and every stored version has certificate and key of one generation |
| `RotationProtocol.WaitIsExactlyWhatIsNeeded` | jobs/pkg/kube/secret.go:166-186 | the second and third write keep trust iff every pod has caught up |
| `RotationProtocol.ReplacementIsSafeIffUnheld` | jobs/pkg/kube/secret.go:97-129 | replacing an existing secret outright keeps trust iff no pod holds a version |
| `RouteDelegation.Resolver.ResolveChild` | projects/gateway2/query/httproute.go:281-302 | a child is a cyclic reference iff visited before, otherwise a node with its complete children map |
| `RouteDelegation.Resolver.ResolveRef` | projects/gateway2/query/httproute.go:272-303 | a reference that is no HTTPRoute changes nothing, one that does not resolve records its error, any other adds the outcomes of its routes |
| `RouteDelegation.Resolver.ResolveRule` | projects/gateway2/query/httproute.go:270-304 | the children accumulate per rule, over all its references |
| `RouteDelegation.Resolver.GetDelegatedChildren` | projects/gateway2/query/httproute.go:258-306 | terminates on every finite cluster, keeps the traversal invariant and returns the complete children map |
| `RouteChain.DelegationStaysInCluster` | projects/gateway2/query/httproute.go:308-346 | a delegated reference, by name or wildcard, leads to a route of the cluster |
| `RouteChain.FetchIsExact` | projects/gateway2/query/httproute.go:308-346 | fetching yields exactly the routes the reference names, by name or wildcard, in its own or the parent's namespace, and fails iff there are none |
| `RouteChain.GetHTTPRouteChain` | projects/gateway2/query/httproute.go:94-107 | the visited set is the reachable set, exactly one node per reachable route other than the root, every reference of a reachable route handled |
| `RouteChain.NoCyclicErrorIffTree` | projects/gateway2/query/httproute.go:281-302 | no cyclic error iff each reachable non-root route has one incoming reference occurrence and the root none |
| `RouteChain.NodeErrorsAreExact` | projects/gateway2/query/backendmap.go:38-57 | a node records an error under a key iff a reference with that key does not resolve or leads to a visited route |
| `RouteChildren.NodeErrorsAreReasons` | projects/gateway2/query/httproute.go:276-288 | the recorded error is that of a reference with the key: its own, or a cyclic one |
| `RouteChildren.NodeItemsAreExact` | projects/gateway2/query/httproute.go:269-304 | children are recorded under a key iff a reference with it resolves, and are the nodes of that rule up to the last such reference, in order |
| `RouteChildren.TreeChildrenAreFound` | projects/gateway2/query/httproute.go:281-302 | in a delegation tree, looking up any reference of the root or an inner node finds the nodes of its routes |
| `RouteChildren.DelegatesIff` | projects/gateway2/translator/backendref/types.go:26-28 | only a reference with kind HTTPRoute and the Gateway API group delegates; nothing is defaulted |
| `RouteChildren.RefKeyIff` | projects/gateway2/query/backendmap.go:21-36 | references share a key iff group, kind, name and namespace agree, missing ones being empty |
| `RouteChain.CyclicReferenceIsReported` | projects/gateway2/query/backendmap.go:48-57 | looking up a cyclic reference returns an error |
| `Hostnames.HostnameIntersect` | projects/gateway2/query/query.go:204-246 | the loops compute the intersection function the next rows are about |
| `Hostnames.IntersectIsSound` | projects/gateway2/query/query.go:204-246 | every host the result stands for is matched by listener and route |
| `Hostnames.IntersectIsExactIff` | projects/gateway2/query/query.go:204-246 | the result is exactly the intersection on all hosts iff the input is lossless, a condition on the patterns alone |
| `Attachment.IsHttpRouteAllowed` | projects/gateway2/query/query.go:340-356 | true iff one of the kinds is HTTPRoute of the Gateway API group |
| `Attachment.AllowsIff` | projects/gateway2/query/httproute.go:191-241 | by the listener's fields: which namespaces and kinds it admits, and which selectors are errors |
| `Attachment.MatchesListenerIff` | projects/gateway2/query/query.go:172-180 | each of port and section name that the reference gives is the listener's |
| `Attachment.RefersToIff` | projects/gateway2/query/query.go:182-202 | group and kind a gateway's or missing, namespace and name the gateway's, the namespace defaulting to the route's |
| `Attachment.GetParentRefsForGw` | projects/gateway2/query/query.go:182-202 | the parentRefs that refer to the gateway, in order |
| `Attachment.AttachToListener` | projects/gateway2/query/httproute.go:131-164 | the three stages of one listener, what is attached and what is left alone |
| `Attachment.AttachPair` | projects/gateway2/query/httproute.go:127-185 | at most one error, for the earliest stage no listener survives |
| `Attachment.GetRoutesForGateway` | projects/gateway2/query/httproute.go:109-189 | each matching pair is attached to exactly the listeners that allow it, match it and share a hostname, and errors are exactly those of the other pairs |
| `Attachment.PairsOfRoute` | projects/gateway2/query/httproute.go:125-127 | the pairs of a route are its references to the gateway, in order |
| `Attachment.PairsConcat` | projects/gateway2/query/httproute.go:125-127 | and those of several routes follow each other |
| `Attachment.AttachmentsAre` | projects/gateway2/query/httproute.go:131-164 | a pair adds one entry per listener of the name it attaches to, in order, with the shared hostnames |
| `Attachment.AttachmentsOfPair` | projects/gateway2/query/httproute.go:127-164 | the attachments of one pair are those over all listeners |
| `Attachment.AllAttachmentsConcat` | projects/gateway2/query/httproute.go:125-164 | and the pairs add one after the other |
| `Attachment.RouteErrorsAre` | projects/gateway2/query/httproute.go:166-184 | one error per failing pair, in order, with its reason |
| `Attachment.ReasonsAre` | projects/gateway2/query/httproute.go:166-184 | each reason iff its stage is the first without a listener |
| `Attachment.AttachedOrError` | projects/gateway2/query/httproute.go:166-184 | a pair is attached somewhere iff it has no error |
| `Indexers.HttpRouteToTargetIndexer` | projects/gateway2/query/indexers.go:25-49 | the keys are exactly those of the indexed parentRefs |
| `Indexers.InTargetIndexIff` | projects/gateway2/query/indexers.go:25-49 | by the fields: indexed under a gateway iff a parentRef names it, an empty namespace being the route's |
| `Indexers.TargetIndexIsExact` | projects/gateway2/query/indexers.go:25-49 | query by index and full scan give the same pairs for all route lists iff the gateway has a namespace |
| `Indexers.ReferenceAllowed` | projects/gateway2/query/query.go:378-396 | allowed iff some grant permits the reference |
| `Indexers.PermitsIff` | projects/gateway2/query/query.go:378-407 | by the fields: which kinds, namespaces and names a grant covers, the empty group being the core group |
| `Indexers.RefGrantFromIndexer` | projects/gateway2/query/indexers.go:51-63 | the keys are exactly the from-namespaces |
| `Indexers.FromIndexIsExact` | projects/gateway2/query/query.go:158-166 | prefiltering grants never changes the answer iff the referring namespace is not empty |
| `SyncLoop.AsyncQueue.Enqueue` | projects/gateway2/proxy_syncer/queue.go:40-51 | undisturbed, the new item replaces whatever was queued |
| `SyncLoop.Syncer.ResyncProxies` | projects/gateway2/proxy_syncer/proxy_syncer.go:105-166 | nothing before secrets are warmed; otherwise the id grows by one and exactly the produced proxies are queued under it, in order |
| `SyncLoop.StampedIs` | projects/gateway2/proxy_syncer/proxy_syncer.go:134-156 | one entry per produced proxy, in gateway order, under its name, all with the id |
| `SyncLoop.WarmedIff` | projects/gateway2/proxy_syncer/proxy_syncer.go:105-179 | in every run the gate opens with the first secret event and nothing else, and no resync begins before |
| `SyncLoop.TakeResyncs` | projects/gateway2/proxy_syncer/proxy_syncer.go:168-179 | once warmed, every event taken begins a resync at that moment |
| `SyncLoop.NoLostWakeup` | projects/gateway2/proxy_syncer/queue.go:40-51 | in every interleaving at select granularity: at rest and warmed, the last resync began after every Enqueue began |
| `QueueDrops.DropsNewIff` | projects/gateway2/proxy_syncer/queue.go:40-51 | in every run, a second select drops its item iff, since the caller's first select, another caller filled the queue and nobody has taken or drained it afterwards |
| `QueueDrops.ExclusiveNeverDrops` | projects/gateway2/proxy_syncer/queue.go:47-50 | with one caller per queue at a time nothing is dropped |
| `QueueDrops.OverlappingCallersDrop` | projects/gateway2/proxy_syncer/queue.go:47-50 | a run of two callers that drops |
| `StatusSyncer.Factory.QueueStatusForProxies` | projects/gateway2/status/status_syncer.go:62-83 | the three maps after queueing |
| `StatusSyncer.Factory.ApplyAll` | projects/gateway2/status/status_syncer.go:129-138 | the calls made per id and the maps after clean-up, in any iteration order |
| `StatusSyncer.Factory.HandleProxyReports` | projects/gateway2/status/status_syncer.go:86-139 | the maps and the applications of a call, report by report |
| `StatusSyncer.FilterProxiesIs` | projects/gateway2/status/status_syncer.go:175-185 | reports of other controllers are dropped, the order is kept |
| `StatusSyncer.OtherControllersAreIgnored` | projects/gateway2/status/status_syncer.go:95-131 | a report of another controller is never applied |
| `StatusSyncer.ApplicationsAreInOrder` | projects/gateway2/status/status_syncer.go:124-131 | one call per id, with the reports admitted under it, in order and as often as admitted |
| `StatusSyncer.HandleAppliesRightly` | projects/gateway2/status/status_syncer.go:86-139 | applications hold exactly the admitted reports, none older than what is pending for its proxy, each under its own stamp |
| `StatusSyncer.RunKeepsInv` | projects/gateway2/status/status_syncer.go:62-139 | after any run each pending proxy is in its iteration's list, each iteration has a registry, and the registries are exactly the queued ones |
| `StatusSyncer.EveryReportMeetsItsRegistry` | projects/gateway2/status/status_syncer.go:86-139 | in every run with increasing ids each application uses the registry queued under its id |
| `StatusHistory.IterationsAreKept` | projects/gateway2/status/status_syncer.go:79-121 | in every run the known iterations are exactly those queued with a proxy; none is ever forgotten |
| `StatusHistory.AppliedIff` | projects/gateway2/status/status_syncer.go:95-127 | in every run a report is applied at its turn iff its sync was queued and no later sync of its proxy is still unanswered, told by the operations and reports before it |
| `StatusHistory.StampIs` | projects/gateway2/status/status_syncer.go:94-101 | the id a report is handled under is that of the last annotated report up to it, 0 if that does not parse |
| `StatusHistory.OldReportInRunAppliedIff` | projects/gateway2/status/status_syncer.go:104-127 | a report not newer than the last one applied for its proxy is applied iff its sync was queued and the proxy was not queued again since |
| `StatusHistory.RepeatedReportIsAppliedAgain` | projects/gateway2/status/status_syncer.go:111-121 | runs in which the same report is applied twice |
| `StatusHistory.SupersededReportIsApplied` | projects/gateway2/status/status_syncer.go:104-127 | runs in which a superseded report is applied after the newer one |
| `StatusSyncer.UnstampedReportTakesPreviousId` | projects/gateway2/status/status_syncer.go:94-109 | a report without annotation is admitted under its predecessor's id |
| `Conditions.BuildFinalConditions` | projects/gateway2/reports/status.go:31-48 | the loop that copies the stored condition and sets the reported one computes the build function |
| `Conditions.BuildIsMerge` | projects/gateway2/reports/status.go:36-48 | for distinct types the loop is a position-by-position merge with the stored conditions |
| `Conditions.AddMissingSpec` | projects/gateway2/reports/status.go:137-210 | the report is kept as a prefix, every mandatory type is there, types stay distinct, a complete report is unchanged |
| `Conditions.AddMissingValues` | projects/gateway2/reports/status.go:137-210 | an added condition has the status and reason assumed for its type, and nothing else is added |
| `Conditions.HealthyDefaults` | projects/gateway2/reports/status.go:137-210 | the conditions of a gateway, listener or parent nothing was reported about |
| `Conditions.BuiltStatusIsGood` | projects/gateway2/reports/status.go:19-135 | every mandatory type exactly once, reported values, and the stored transition time exactly when the status is unchanged |
| `Conditions.RebuildIsFixpoint` | projects/gateway2/reports/status.go:19-135 | rebuilding against its own output returns the same conditions and times |
| `Conditions.BuiltTypesAreDistinctIff` | projects/gateway2/reports/reporter.go:221-229 | for any report: types are distinct iff no type is both repeated in the report and stored |
| `StatusBuilder.GatewayReport.Listener` | projects/gateway2/reports/reporter.go:89-99 | the report of a listener, created empty on first use |
| `StatusBuilder.GatewayReport.BuildListenerStatus` | projects/gateway2/reports/status.go:30-50 | one listener's status, with its report overwritten |
| `StatusBuilder.ReportMap.BuildGWStatus` | projects/gateway2/reports/status.go:19-70 | none iff there is no report; otherwise conditions, listener statuses and the report left behind |
| `StatusBuilder.ReportMap.BuildRouteStatus` | projects/gateway2/reports/status.go:72-135 | none iff there is no report; otherwise one status per parentRef, or per report key for a route without parentRefs, and only missing conditions written back |
| `StatusBuilder.EachListenerIsBuilt` | projects/gateway2/reports/status.go:30-51 | each spec listener gets the status built from its original report, also when names repeat and the report was overwritten in between |
| `StatusBuilder.ListenerStatusesAreGood` | projects/gateway2/reports/status.go:30-51 | one status per spec listener, in order and under its name, with the promises on conditions |
| `StatusBuilder.StoredListenerIs` | projects/gateway2/reports/status.go:35-37 | the stored conditions are those of the first stored listener of the name, or none |
| `StatusBuilder.StoredParentIs` | projects/gateway2/reports/status.go:103-109 | the same for a parent with an equal reference |
| `StatusBuilder.SharedReportIff` | projects/gateway2/reports/reporter.go:163-184 | references share a report iff group, kind, namespace and name agree; section name and port play no part |
| `StatusBuilder.ListenerStatusesAreFixpoint` | projects/gateway2/reports/status.go:19-70 | once stored, listener statuses come out the same again, from the original and from the overwritten reports |
| `StatusBuilder.ParentStatusesAreGood` | projects/gateway2/reports/status.go:99-129 | the promises on conditions for every parent |
| `StatusBuilder.ParentStatusesAreFixpoint` | projects/gateway2/reports/status.go:75-135 | once stored, the same parent statuses come out again, in the order of the second enumeration of the report; the result is equal iff the route has parentRefs or the orders agree |
| `Discovery.SharedClusterNameIff` | projects/gloo/pkg/translator/utils.go:20-29 | two references share a cluster name iff they are equal or one name goes on with an underscore where the other ends and the rest reads as the namespace |
| `Discovery.NamespacedNeverShare` | projects/gloo/pkg/translator/utils.go:20-29 | with non-empty namespaces free of underscores only equal references share one |
| `Discovery.Diff` | projects/discovery/pkg/fds/eventloop.go:44-55 | the elements of the first list whose reference the second lacks, in order |
| `Discovery.DifferenceIs` | projects/discovery/pkg/fds/eventloop.go:44-55 | that list is a filter of the first one, in order |
| `Discovery.SnapshotCovered` | projects/discovery/pkg/fds/eventloop.go:24-28 | the three differences cover the snapshot, and every key surviving removal is updated |
| `Discovery.Updater.UpstreamAdded` | projects/discovery/pkg/fds/updater.go:116-144 | ignored for a tracked key, otherwise one fresh updater |
| `Discovery.Updater.UpstreamRemoved` | projects/discovery/pkg/fds/updater.go:146-152 | the key is gone and its updater cancelled |
| `Discovery.Updater.UpstreamUpdated` | projects/discovery/pkg/fds/updater.go:110-114 | the key's updater is replaced by a fresh one |
| `Discovery.FunctionDiscovery.Update` | projects/discovery/pkg/fds/eventloop.go:18-42 | the active keys are the snapshot's, every updater works on an upstream of it, every updater outside the map is cancelled and no earlier one survives |
| `Discovery.OneUpdaterPerUpstreamIff` | projects/discovery/pkg/fds/eventloop.go:18-42 | exactly one running updater works on each upstream of the snapshot iff no two of them share a key |
| `DetectionTokens.StepKeepsInv` | projects/discovery/pkg/fds/updater.go:206-282 | every step of filler, detections and receivers conserves tokens |
| `DetectionTokens.TokensAreConserved` | projects/discovery/pkg/fds/updater.go:53-65 | unfilled, buffered and held tokens add up to the maximum; at most that many detections; filler and give-back never wait |
| `DetectionTokens.WaitingMeansSaturated` | projects/discovery/pkg/fds/updater.go:207-217 | a detection is held up only by the maximum number of others |
| `DetectionTokens.DoomedOnlyIfCancelled` | projects/discovery/pkg/fds/updater.go:262-281 | only a cancelled detection can be left without a receiver |
| `DetectionTokens.TokenComesBackIff` | projects/discovery/pkg/fds/updater.go:206-238 | a held token can still be given back in some continuation iff its holder's receiver has not left before the send |
| `DetectionTokens.LostTokensStayLost` | projects/discovery/pkg/fds/updater.go:206-238 | lost tokens stay lost, and the others are all that can be in use |
| `DetectionTokens.DetectionStopsIff` | projects/discovery/pkg/fds/updater.go:206-217 | some detection can still start iff not all tokens are lost |
| `DetectionTokens.ATokenCanBeLost` | projects/discovery/pkg/fds/updater.go:206-282 | a run that gets there |
| `TestTrie.SplitPrefix` | ci/github-actions/go-test-summary/summary/tree.go:49-52 | proper path prefixes are name prefixes up to a slash, and paths determine names |
| `TestTrie.LookupAfterInsert` | ci/github-actions/go-test-summary/summary/tree.go:130-160 | a node keeps its first event; a new event lands on the new prefixes of its path |
| `TestTrie.NodesAreFirstEvents` | ci/github-actions/go-test-summary/summary/tree.go:30-36 | each node carries the first event whose path goes through it |
| `TestTrie.LeafPathsAreLeaves` | ci/github-actions/go-test-summary/summary/tree.go:86-118 | the leaves are exactly the paths nothing extends |
| `TestTrie.LeavesSelect` | ci/github-actions/go-test-summary/summary/go_test_summary.go:108-122 | the leaf events are exactly the first events of the names that are no proper path prefix of another name, each once |
| `TestSummary.InsertRec` | ci/github-actions/go-test-summary/summary/tree.go:130-160 | the heap tree after insertion represents the inserted tree, growing only by fresh nodes |
| `TestSummary.Multitree.PushString` | ci/github-actions/go-test-summary/summary/tree.go:48-84 | the same for the forest |
| `TestSummary.LeafNodesRec` | ci/github-actions/go-test-summary/summary/tree.go:103-118 | the nodes returned carry the leaf events of the represented tree, in order |
| `TestSummary.SelectLeafNodes` | ci/github-actions/go-test-summary/summary/go_test_summary.go:108-122 | the selection promised by `TestTrie.LeavesSelect` |
| `TestSummary.SelectResultEvents` | ci/github-actions/go-test-summary/summary/go_test_summary.go:96-106 | the pass, fail and skip events of named tests, in order |
| `TestSummary.IsResultIff` | ci/github-actions/go-test-summary/summary/go_test_summary.go:98-104 | which events are verdicts |
| `TestSummary.ResultsAre` | ci/github-actions/go-test-summary/summary/go_test_summary.go:96-106 | the selection is a filter, in order |

## Left out

- Proxy reconciliation: listeners and virtual hosts are values inside the mutable `Proxy`, so aliasing between the stored and the desired proxy is not captured; solo-kit's base reconciler is a store that always writes; several proxies in one round are independent and only one is modelled.
- Proxy reconciliation: aggregate listeners have no graft case in the code, so nothing is claimed about their rejected virtual hosts; their resources are assumed to be keyed by virtual host name without dangling references where stripping is concerned.
- LastKnownGood.RoundKeepsLastGood: assumes source stability (a name has the same sources in every round) and distinct names in each generated proxy, since the code relies on both; `DuplicateNamesIff` covers what happens otherwise. Under a repeated matcher the stored version is that of the last stored matched listener; `RejectedHostsKeptIff` says when that is all of them.
- ProxyReconciler.ErrorsStripEverySharer: an entry of a hybrid or aggregate report is keyed by a route config name; when matchers, hence names, repeat, it is taken to be about the last sub-listener with that name, as the code takes it.
- CertRotation.Run: errors on reading or decoding the stored secret, and the webhook patch after it, are not modelled.
- RouteChain.GetHTTPRouteChain: the resolved backends and the hostname overrides of a node are not modelled.
- Reporting.ResourceReports.AddProxyValidationResult: the half-updated reports after an error are not specified, because the caller then writes nothing.
- Libraries: `sort.SliceStable`, `strings.Split` and `meta.SetStatusCondition` are functions of the model; protobuf cloning, label selectors and `MatchedRouteConfigName` are abstract.
- Cert rotation: X.509 and PEM are the generation a certificate, key or CA belongs to; API failures, clock and context are parameters; a settled grace wait is assumed to mean that every pod has caught up.
- RouteChildren.TreeChildrenAreFound: assumes that references of one route with the same key resolve alike, as references of plain names without an explicitly empty namespace do (`RefKeyIff`).
- Delegation: the cluster is one consistent snapshot; backend resolution, route translation and `HTTPRouteInfo.Clone` are not modelled.
- Attachment: the client's list call succeeds, and a selector is the set of namespaces it matches; the hostname theorems are about syntactically valid patterns.
- Sync loop: a resync whose gateway list fails counts as begun; translation, plugins and the writing of statuses are not modelled; leader election is not modelled.
- Status building: the clock is read once per build; addresses and supported kinds are not computed; listener and parent reports are values in the maps of their report, so writing through a pointer kept elsewhere is not captured.
- Function discovery: `Run`, `saveUpstream`, secrets and the discoveries themselves are not modelled; an updater's upstream is the value it was started with.
- Test summary: reading, parsing and printing the log.
- Config translation, deployer, API conversion, CLI, version selection and the remaining plugins: field-by-field code whose properties would only add easy members.
