# Atlas DNS Controller: a verified model

Atlas DNS Controller turns a draft configuration into an immutable revision, deploys it node by node, reads every
node back, and only then makes the revision active. This project models three parts of it and proves what they
guarantee.

**The deployment and revision protocol.** `Protocol` is a step system: the database is a value, every transaction is
one step, and the executor is a program counter that may stop after any repository call, crash, and be followed by
recovery. Drafts, imports, publications, deletions, cancel requests, drift records and node edits happen between its
steps. `Invariant`, `Retention` and `Runs` prove what holds in every reachable state and over whole runs;
`Cancellation` and `Handoff` prove the two guarantees that span many steps, and `HandoffLimits` exactly when the
hand-over of the DHCP role can end with two servers. `History` traces rows back to the requests they come from,
`Attempts` counts how often a target is entered, and `Requests` says which requests are accepted. `Stores` holds the transactions as methods
on mutable tables. `Executors` holds the executor as a program over those tables; other requests are served between
any two of its calls, every call may fail before or after it commits, and the program's own record of what happened is
proved to be a run of `Protocol` at all times, so every theorem about runs is a theorem about the program. When nobody
interferes, the program's outcome is given exactly by what the tables, the intent and the nodes say.

**The configuration algebra and node reconciliation.** `Clean`, `Configuration` and `Diff` model canonical form,
projection and semantic diff; `Agreement` says field by field, on the documents as they are, when two of them say the
same, and proves that diff, verification, listener check and round trips decide exactly that, and `Reports` under which
name and with which values each difference is told; `Preview` models the choice and order of targets; `Subnet` the IPv4 range check. `Reconcile`,
`Rewrites`, `Leases` and `Applying` model the loops that bring a node to the wanted filter lists, rewrites and leases:
a node is a state and the changes sent to it, and it may reject any change. `ReadBack` models what is read back of that
state and proves exactly when an apply is followed by a clean verification.

**Ingestion, MFA and versions.** `QueryLog`, `Pollers`, `Coverage` and `Gaps` model paging with a watermark and an overlap;
`Mfa` and `MfaStores` the multi-factor transactions; `Compat` and `Precedence` version parsing and classification.

## Conventions

- One executor; recovery runs before it (cmd/controller/main.go:109-112). One active deployment per cluster is the
  partial unique index in migrations/000003_release_0_3.up.sql:76-77.
- Case folding is ASCII folding everywhere. Sorting is stable; the source's `sort.Slice` is not, so with several
  clients, rewrites or leases of the same folded key the source may order them differently. Because of the stable
  sort, idempotence of canonical form needs no distinctness condition here.
- Lists whose nil and empty JSON differ are options, and JSON comparison is value comparison.
- SHA-256 digests are injective functions; random identifiers and tokens are new when they are issued.
- Reading a node's rewriting switch is mandatory (internal/adguard/configuration.go:419-421) while writing it is optional
  (line 1219), so a node without the switch can be applied to and never verified; `ReadBack` says so.
- While no revision is active, the first comparison of the delete guard is NULL, and the delete is refused; `Diff` of
  two documents with negative schema versions skips the schema-2 fields, and `DiffExactness` gives the exact range.
- `tokensIssued`, `codesIssued` and `logins` in `Mfa`, and `run`, `origin` and `pc` in `Executors`, are history kept to
  state properties; the source has no such columns or fields.

## Model

| member | source | states |
|---|---|---|
| Clean.CleanOrderedLoop | internal/configuration/model.go:776-787 | the loop computes the trimmed, non-empty values in their order |
| Clean.CleanOrderedIdempotent | internal/configuration/model.go:776-787 | cleaning an ordered list twice changes nothing more |
| Clean.CleanSetLoop | internal/configuration/model.go:789-808 | the loop with its seen-map and sort computes the first trimmed value of each folded key, in folded order |
| Clean.CleanSetFacts | internal/configuration/model.go:789-808 | one entry per folded key, sorted, the folded set of the input, and every entry a trimmed input |
| Clean.CleanSetIdempotent | internal/configuration/model.go:789-808 | cleaning a set twice changes nothing more |
| Clean.CleanSetOrderIrrelevant | internal/configuration/model.go:789-808 | without values that differ only by case, two lists with the same values clean to the same list |
| Clean.CaseTwinsOrderMatters | internal/configuration/model.go:789-808 | with such values, some reordering of the list cleans to another list |
| Clean.CleanSetOrderCharacterised | internal/configuration/model.go:789-808 | input order is ignored if and only if no two trimmed values differ only by case |
| Configuration.CanonicaliseIdempotent | internal/configuration/model.go:247-308 | canonical form is a fixed point, for every document |
| Configuration.CanonicaliseDesiredIdempotent | internal/configuration/model.go:310-327 | the same for cluster intent with all node overrides |
| Agreement.CanonicalSays | internal/configuration/model.go:247-308 | the canonical form of every document says, field by field, what the document says |
| Agreement.SortedFormsExact | internal/configuration/model.go:273-301 | putting two lists in form and in order gives the same list if and only if under every key they have the same entries in the same order |
| Diff.WithScopeLoop | internal/controlplane/service.go:635-653 | the append loop keeps exactly the differences of the given ownership, in order |
| Diff.DiffExact | internal/configuration/model.go:404-459 | for documents of schema 0 and up, Diff is empty if and only if the canonical shared, node-specific and unsupported parts are equal |
| Diff.DiffBlindBelowZero | internal/configuration/model.go:404-459 | two negative schema versions make Diff miss a difference |
| Diff.DiffExactness | internal/configuration/model.go:404-459 | an empty Diff means agreement for all documents of two schema versions if and only if one of them is not negative |
| Agreement.DiffDecides | internal/configuration/model.go:404-459 | for documents of schema 0 and up, Diff is empty if and only if the raw documents say the same: ordered lists after trimming, sets after cleaning, words after trimming, clients, rewrites and leases entry by entry, every other field as it is |
| Reports.ServersTold | internal/configuration/model.go:414-417 | each list of servers that differs is told under its own name, with the left and the right list on their sides, and only then |
| Reports.LimitsTold | internal/configuration/model.go:418-423 | the same for protection and rate limits |
| Reports.BlockingTold | internal/configuration/model.go:424-427 | the same for blocking |
| Reports.ExtensionsTold | internal/configuration/model.go:428-431 | the same for EDNS, IPv6 and DNSSEC |
| Reports.ResolutionTold | internal/configuration/model.go:432-435 | the same for cache and upstream handling |
| Reports.FilteringTold | internal/configuration/model.go:437-451 | the same for filtering |
| Reports.PoliciesTold | internal/configuration/model.go:440-450 | the same for clients, rewrites, services and policies |
| Reports.NodeTold | internal/configuration/model.go:452-457 | the same for bind hosts, port, DHCP and unsupported areas |
| Diff.DiffSwaps | internal/configuration/model.go:404-459 | swapping the documents gives the same fields in the same order with the sides swapped |
| Diff.ManagedExact | internal/controlplane/service.go:645-653 | no managed difference if and only if canonical shared and node-specific parts are equal |
| Agreement.ManagedDecides | internal/controlplane/service.go:645-653 | no managed difference if and only if the raw shared and node-specific settings say the same |
| Agreement.ListenerDecides | internal/controlplane/service.go:655-663 | nothing immutable differs if and only if bind hosts and port are the same, whatever the schema versions |
| Agreement.EffectiveSays | internal/configuration/model.go:372-384 | an intent has an effective document for a node if and only if it has an override for it, and that document says what the intent says |
| Agreement.EffectiveCarries | internal/configuration/model.go:372-384 | the effective document has the intent's schema and unsupported areas, and nothing observed |
| Agreement.HashDecides | internal/configuration/model.go:386-393 | two documents have the same hash if and only if they say the same, observed parts and schema included |
| Agreement.ReadBackDecides | internal/controlplane/executor.go:143-150 | a read-back is clean if and only if the raw observed settings say what the raw intent says for the node |
| Diff.DiffDesiredExact | internal/configuration/model.go:461-491 | DiffDesired is empty if and only if canonical intents agree on shared settings, unsupported areas and every override |
| Agreement.DiffDesiredDecides | internal/configuration/model.go:461-491 | DiffDesired is empty if and only if the raw intents say the same about shared settings, unsupported areas and the same set of nodes |
| Diff.ImportMergeLoop | internal/inventory/service.go:295-309 | the merge loop, in any order of the map, keeps every other override and takes the observed one |
| Diff.ImportRoundTrip | internal/inventory/service.go:295-309 | importing an observation and projecting the draft back to that node leaves no managed difference, for every prior draft or none |
| Agreement.ImportTakes | internal/inventory/service.go:295-309 | an import takes shared settings, areas and the node from the observation; every other node keeps its override, and no node is added or lost |
| Diff.AdoptRoundTrip | internal/controlplane/service.go:447-451 | the same for adopting drift |
| Agreement.AdoptTakes | internal/controlplane/service.go:447-451 | adopting takes shared settings and the node from the observation; every other override, the areas and the schema version stay |
| Diff.VerifiedDhcp | internal/controlplane/service.go:645-653 | a read-back without managed differences runs DHCP exactly when the intent does |
| Preview.CountOverrides | internal/configuration/model.go:529-546 | the counting loop reports missing overrides and how many nodes are to run DHCP |
| Preview.CheckTargets | internal/controlplane/service.go:538-620 | every chosen target has the needed capabilities, a successful observation and an unchanged listener, if and only if none is counted as unfit |
| Preview.TargetsAreChosen | internal/controlplane/service.go:477-483 | a node is a target if and only if a listed row of it is enabled, out of maintenance, and selected if any are |
| Requests.PreviewExactly | internal/controlplane/service.go:468-633 | a preview finds no issue if and only if the raw document is current, covers every enabled node, gives DHCP to at most one of them, and every eligible node, of which there is one, is capable and was observed with its listener |
| Preview.PlanFacts | internal/controlplane/service.go:468-494 | the plan of a valid preview has exactly the listed rows that are enabled, out of maintenance and selected if any are, each once and with an override, and only the last may be given DHCP |
| Stores.Store.ClaimDeployment | internal/database/controlplane.go:359-378 | claims the queued or cancelling row that was requested first, as validating, or as cancelling if a cancel is stored; none only if no row is claimable |
| Stores.Store.UpdateDeploymentNode | internal/database/controlplane.go:380-383 | one task row is replaced and nothing else changes |
| Stores.Store.SetDeploymentRunning | internal/database/controlplane.go:385-388 | validating becomes running, any other status stays |
| Stores.Store.MarkNodeApplied | internal/database/controlplane.go:390-393 | the node row gets revision and hash, a missing node nothing |
| Stores.Store.FinishDeployment | internal/database/controlplane.go:395-417 | the status is written, the active revision exactly when asked to, and open drift the deployment was to enforce learns how it ended |
| Stores.Store.InterruptDeployments | internal/database/controlplane.go:419-466 | the three statements, in their order, interrupt running tasks, skip pending tasks of open deployments and close those deployments |
| Stores.Store.RequestDeploymentCancel | internal/database/controlplane.go:340-357 | succeeds exactly for queued, validating and running rows; the request is stored, and a queued row becomes cancelling |
| Stores.Store.CreateDeployment | internal/controlplane/service.go:254-317 | inserts the queued deployment with its planned tasks exactly when origin, revision, overrides, targets, the one-active index and the references allow it |
| Stores.Store.DeleteUnstartedDeployment | internal/database/controlplane.go:310-338 | deletes exactly rows that never started and that no drift refers to |
| Stores.Store.DeleteUnusedRevision | internal/database/controlplane.go:161-189 | deletes exactly revisions that nothing refers to, and none while the cluster has no active revision |
| Stores.Store.UpdateConfigurationDraft | internal/database/controlplane.go:17-38 | writes the draft under its version guard and raises the version |
| Stores.Store.HighestNumber | internal/database/controlplane.go:53-55 | the loop finds the highest revision number of the cluster, zero if there is none |
| Stores.Store.PublishRevision | internal/database/controlplane.go:40-71 | inserts the revision one above the highest number and bases the draft on it, under the version guard |
| Stores.Store.ImportDraft | internal/database/inventory.go:200-228 | inserts or overwrites the draft, with the base that was read, under the version guard |
| Stores.Store.SoftDeleteNode | internal/database/nodes.go:173-221 | succeeds exactly for a row of the expected version that is not deleted; the row is kept as deleted, its override leaves the draft with a new version and its open drift is resolved |
| Requests.CreatedExactly | internal/controlplane/service.go:254-317 | a request creates a deployment if and only if its id is new, cluster and revision exist and belong together, only a reconciliation names nodes, earlier deployments of the cluster have ended, and the document is deployable |
| Requests.QueuedDeletable | internal/database/controlplane.go:310-338 | in every reachable state a deployment can be deleted if and only if it is queued and no drift names it |
| Requests.CreateThenDelete | internal/database/controlplane.go:310-338 | deleting a deployment right after creating it leaves the tables as they were |
| Requests.NoLostUpdate | internal/database/controlplane.go:17-71 | of two writes of one draft in a run, updates, publications and imports alike, the later was made against a version that contains the earlier |
| Requests.VersionsNeverFall | internal/database/controlplane.go:17-71 | a draft is never removed, and its version never falls over a run |
| Requests.DraftWritable | internal/database/controlplane.go:17-71 | whoever knows the version of a draft can update it and publish from it |
| Requests.NodeRemovable | internal/database/nodes.go:173-221 | whoever knows the version of a node can remove it |
| History.CreatedByRequest | internal/controlplane/service.go:254-317 | in every reachable state a deployment goes back to a request of the run, with its cluster, revision, origin and time and exactly one task for each node that was eligible |
| History.ActivationWasRequested | internal/controlplane/executor.go:161-167 | a revision becomes active only through a manual or rollback request for that cluster and revision |
| History.PublishedAsIs | internal/database/controlplane.go:40-71 | in every reachable state a revision has the cluster, number and document it was published with |
| History.OneActivePerCluster | migrations/000003_release_0_3.up.sql:76-77 | in every reachable state a cluster has at most one deployment that has not ended |
| History.CancelPossible | internal/database/controlplane.go:340-357 | a deployment that has not ended and is not being cancelled can be cancelled |
| History.RecoveryExact | internal/database/controlplane.go:419-466 | what recovery makes of every deployment and every task, status by status, with everything else unchanged |
| History.DriftAlwaysRefers | internal/database/controlplane.go:161-189 | in every reachable state drift refers to a revision and a deployment that exist |
| History.FinishConcludesDrift | internal/database/controlplane.go:395-417 | finishing marks open drift of the deployment as enforcing if and only if it succeeded, as failed otherwise, and leaves all other drift alone |
| History.RemovalOfNode | internal/database/nodes.go:173-221 | a removed node is kept as disabled and deleted with a new version, exactly its open drift is resolved, and no other node changes |
| History.RemovalFromDraft | internal/database/nodes.go:173-221 | removing a node takes exactly its override out of its own cluster's draft, and raises the version only then |
| History.DraftExact | internal/database/controlplane.go:17-71 | what every step does to a draft: document, base and version after an update, import or publication, and nothing otherwise |
| History.DeletableExactly | internal/database/controlplane.go:161-189 | in every reachable state a revision can be deleted if and only if no row of any table names it and its cluster has an active revision |
| Attempts.EnteredOnce | internal/controlplane/executor.go:119-125 | in every reachable state a task that is neither pending nor skipped was entered exactly once and the others never, and a deployment that ran or ended was claimed |
| Invariant.RowsTask | internal/controlplane/executor.go:110-160 | taking a target through apply, read-back and recording keeps every deployment's tasks in shape |
| Invariant.RowsFinish | internal/controlplane/executor.go:161-234 | whichever way a deployment is finished, no task is left unfinished, and succeeded means every task succeeded |
| Invariant.RowsStop | internal/database/controlplane.go:419-466 | failed calls, crashes and recovery keep the shape |
| Retention.DraftsOther | internal/database/controlplane.go:17-71 | every draft write, imports in flight included, keeps the base the highest-numbered revision |
| Retention.PinnedForever | internal/database/controlplane.go:161-189 | no step deletes or changes a revision that a started deployment rolls out |
| Runs.InvStep | internal/controlplane/executor.go:69-234 | the conjunction of all table invariants is kept by every step of everybody |
| Runs.TasksAlwaysInShape | internal/controlplane/executor.go:69-234 | in every reachable state tasks are succeeded ones, at most one other, then pending or skipped ones; a terminal deployment has no unfinished task |
| Runs.ExecutorNeverStuck | internal/controlplane/executor.go:69-234 | in every reachable state an executor that holds a deployment has a next step: the rows and positions it relies on are there |
| Runs.SuccessWasRead | internal/controlplane/executor.go:143-155 | every recorded success goes back to a read-back of that very target, in the same run, that returned the stored snapshot |
| Runs.TerminalForever | internal/database/controlplane.go:340-466 | a deployment that reached a terminal status never changes again |
| Runs.ActivationOnlyVerified | internal/database/controlplane.go:390-417 | the active revision changes only when a manual or rollback deployment finishes with every target carrying that revision and read back clean by an earlier step of the same run |
| Runs.AppliedHashExact | internal/controlplane/executor.go:156 | in every reachable state a node's applied hash is the hash of its applied revision's effective configuration for it |
| Runs.OnceUsedNeverDeleted | internal/database/controlplane.go:161-189 | a revision that was ever active or applied is kept unchanged for good, and its delete is refused at every later state |
| Runs.NumbersNeverReused | internal/database/controlplane.go:40-71 | a published revision gets a higher number than every revision its cluster ever had, deleted ones included |
| Cancellation.AtMostOneMoreNode | internal/controlplane/executor.go:110-127 | after a cancel request is stored at most one more node enters applying, in any interleaving |
| Cancellation.CancelStopsEntries | internal/database/controlplane.go:340-357 | a cancel request of a run stores the cancellation, and after it at most one more node enters applying, none if the deployment was queued |
| Cancellation.BoundaryCancels | internal/controlplane/executor.go:217-234 | from a boundary with the request stored, and calls succeeding, the deployment is cancelled after exactly the steps left, the rest skipped and no active revision changed |
| Cancellation.CancelRequestStops | internal/controlplane/executor.go:217-234 | the same from an earlier cancel request of the run, not from a stored flag |
| Handoff.CleanMeansWanted | internal/controlplane/executor.go:147-150 | a clean read-back shows the wanted DHCP state |
| Handoff.NeverTwoServers | internal/controlplane/executor.go:110-160 | at most one node of a cluster runs DHCP after every step, whatever fails half way, if targets cover the running nodes and read-backs are true |
| HandoffLimits.SecondServer | internal/controlplane/executor.go:133 | switching a target on while another node of its cluster runs ends with two servers |
| HandoffLimits.TwoServersExactly | internal/controlplane/service.go:477-494 | before the first target, disciplined steps can lead to two servers if and only if the last target is to run DHCP, an untouched node of the cluster runs it, and no cancel is stored |
| Executors.OthersUndisturbed | internal/controlplane/executor.go:69-168 | no request of anybody else changes the held deployment except its cancel flag, or the intent it rolls out |
| Executors.Executor.constructor | internal/controlplane/executor.go:47-49 | the record starts as a run of the protocol |
| Executors.Executor.RecoverInterrupted | internal/controlplane/executor.go:51-53 | afterwards no deployment is open and no task in progress; the record stays a run |
| Executors.Executor.Restart | internal/controlplane/executor.go:51-53 | stopped at any point and started again, no deployment is open and no task in progress; the record stays a run |
| Executors.Executor.Claim | internal/controlplane/executor.go:55-60 | a claim that commits is a step of the protocol, and a claim whose answer is lost leaves the deployment for recovery |
| Executors.Executor.RunOnce | internal/controlplane/executor.go:55-61 | the record stays a run; a claimed deployment has ended unless a call failed; nothing claimed means nothing claimable; if nobody interferes the claimed one was requested first and ends as the tables, intent and nodes say |
| Executors.Executor.Execute | internal/controlplane/executor.go:69-168 | whatever fails, what happened extends the run; unless a repository call fails the deployment has ended, a success with every task succeeded and, except for reconciliation, its revision active; if nobody interferes it is cancelled, failed, partially succeeded or succeeded exactly as stored cancel, node rows, raw intent, applies and observations say |
| Executors.Executor.Prepare | internal/controlplane/executor.go:83-106 | either every target has its effective configuration and was seen mutable during the loop, or nothing is mutated; if no call fails, refusal means that some target was not ready at a state of the loop with the observation taken for it |
| Executors.Executor.PrepareNode | internal/controlplane/executor.go:85-105 | a target is prepared if and only if its row is enabled, out of maintenance and supported, the intent is not of the old schema and has an override for it, and the observed listener is that of the override |
| Executors.Executor.DeployNodes | internal/controlplane/executor.go:110-167 | the node loop with its task copies and success counter is a sequence of protocol steps and ends the deployment; if nobody interferes it succeeds if and only if every target is applied and read back as intended, and partially if only the first ones are |
| Executors.Executor.CheckCancelled | internal/controlplane/executor.go:112-119 | a stored request stops at the boundary, otherwise the target is entered |
| Executors.Executor.ApplyNode | internal/controlplane/executor.go:119-135 | a target's row says applying before its node is touched, and the outcome of the apply decides what follows |
| Executors.Executor.VerifyNode | internal/controlplane/executor.go:136-150 | a target's row says verifying before its node is read back, and a difference or a failed observation fails it |
| Executors.Executor.ReadNodeBack | internal/controlplane/executor.go:143-150 | verified if and only if the observation succeeded and shows no managed difference |
| Executors.Executor.RecordNode | internal/controlplane/executor.go:151-158 | success is recorded before the node is marked applied |
| Executors.Executor.FailBeforeMutation | internal/controlplane/executor.go:170-186 | every task is skipped and the deployment failed |
| Executors.Executor.FailNode | internal/controlplane/executor.go:188-215 | the target fails, later ones are skipped, and the status is partially succeeded exactly if an earlier target succeeded |
| Executors.Executor.CancelFrom | internal/controlplane/executor.go:217-234 | pending tasks from the boundary on are skipped and the deployment cancelled |
| Reconcile.Node.Send | internal/adguard/configuration.go:1352-1354 | an accepted change takes effect, a rejected one does not, and both are on record |
| Reconcile.ReconcileFilterUrls | internal/adguard/configuration.go:1141-1177 | the chosen list becomes the settled list, nothing else of the node changes, and a settled list is sent nothing |
| Reconcile.FiltersConverge | internal/adguard/configuration.go:1141-1177 | the enabled URLs of the settled list are the wanted ones up to case |
| Reconcile.FiltersStay | internal/adguard/configuration.go:1141-1177 | the settled list has unique keys and settles to itself |
| Rewrites.ReconcileRewrites | internal/adguard/configuration.go:1214-1259 | the rewrites become the settled ones, and settled rewrites are sent only the rewriting switch |
| Rewrites.RewritesConverge | internal/adguard/configuration.go:1214-1259 | with the toggle supported, settled keys and their switches are the wanted ones |
| Rewrites.KeyFolds | internal/adguard/configuration.go:1228 | keys are equal if and only if domain and answer are equal up to case, for domains without the separator |
| Rewrites.RewritesStay | internal/adguard/configuration.go:1214-1259 | the settled rewrites have unique keys and settle to themselves |
| Leases.ReconcileDhcp | internal/adguard/configuration.go:1300-1350 | settings match, leases become the settled ones, only the DHCP part changes, and a settled server is sent nothing; after a rejection the settings are the old or exactly the wanted ones |
| Leases.LeasesConverge | internal/adguard/configuration.go:1311-1336 | the settled leases are the wanted ones up to the case of the MAC address |
| Leases.LeasesStay | internal/adguard/configuration.go:1311-1336 | the settled leases have unique addresses and settle to themselves |
| Applying.ApplyConfiguration | internal/adguard/configuration.go:799-875 | the node reaches the settled state if nothing is rejected, a second pass changes no set, DHCP is touched only after everything else converged, and its settings are never half written |
| ReadBack.FiltersReadBack | internal/adguard/configuration.go:688-704 | after a pass the canonical report of a filter list is the wanted list if and only if no listed filter had the key of a wanted URL with other text |
| ReadBack.RewritesReadBack | internal/adguard/configuration.go:746-750 | after a pass the canonical report of the rewrites is the wanted list if and only if texts agreed wherever keys did or a differing switch was written and, without the toggle, every wanted rewrite is on |
| ReadBack.LeasesReadBack | internal/adguard/configuration.go:759-763 | after a pass the canonical report of the leases is always the wanted list |
| ReadBack.VerifiedExactly | internal/controlplane/executor.go:133-150 | after a pass with nothing rejected verification is clean if and only if the condition held before the call and everything else is read back as wanted |
| ReadBack.IntentVerifiedExactly | internal/controlplane/executor.go:143-150 | the same for the effective configuration of a node, as the executor verifies it |
| ReadBack.ApplyThenVerify | internal/controlplane/executor.go:133-150 | apply and verify as one program: verification succeeds exactly under the condition on the state before |
| ReadBack.CaseTwinNeverVerifies | internal/adguard/configuration.go:1151-1162 | a node that lists the wanted URL in other case has converged and is never verified, whatever else it reports |
| Subnet.MaskSizeExact | internal/configuration/model.go:683-687 | a mask has size k if and only if it is k ones followed by zeros |
| Subnet.ShiftIsMask | internal/configuration/model.go:691-692 | prefix containment is agreement on the bits of the mask |
| Subnet.ValidateIpv4 | internal/configuration/model.go:679-698 | reports unreadable values, a range outside the subnet, and an end before the start |
| Subnet.AcceptedExactly | internal/configuration/model.go:679-698 | accepted if and only if DHCP is off with gateway, mask and range empty, or these are readable, the mask contiguous, the range not empty and every address of it in the gateway's subnet |
| Subnet.IssuesExact | internal/configuration/model.go:679-698 | which issue is reported: unreadable values alone, or a range outside the subnet and a range that runs backwards, each if and only if it is so |
| Pollers.QueryStore.RecordQueryLogPoll | internal/database/querylog.go:172-239 | inserts exactly the absent rows, counts them, and overwrites the checkpoint |
| Pollers.ReadPages | internal/jobs/querylog.go:242-302 | the paging loop's events, occurrence numbers, extremes and flags are those of the paging function |
| Pollers.PollNode | internal/jobs/querylog.go:172-329 | a whole poll records what the poll function says, and nothing when the checkpoint cannot be loaded or the outcome not recorded |
| Coverage.WatermarkNeverFalls | internal/jobs/querylog.go:316-321 | a node's watermark never decreases over any sequence of polls |
| Coverage.WatermarkExact | internal/jobs/querylog.go:316-321 | over every sequence of polls the watermark is the largest timestamp any recorded poll fetched: nothing fetched is above it, something fetched has it, and there is none exactly while nothing was fetched |
| Coverage.OccurrencesExact | internal/jobs/querylog.go:267-279 | the stored occurrence numbers of a record are exactly 1 to the most copies one poll recorded |
| Coverage.ReplayInsertsNothing | internal/database/querylog.go:179-208 | recording again what an earlier poll fetched inserts nothing, at any later time |
| Coverage.GapFreeFetch | internal/jobs/querylog.go:242-315 | a poll that reports no gap fetched every copy of every record not older than the overlap, if no page boundary separates equal timestamps |
| Coverage.EveryRecordStored | internal/jobs/querylog.go:242-328 | under the stated conditions every copy of every record the node held at any poll is stored |
| Coverage.FirstPollCovers | internal/jobs/querylog.go:242-328 | the conditions can be met: a first poll of any ordered log shorter than a page meets them |
| Coverage.SplitLosesRecord | internal/jobs/querylog.go:247-302 | 501 records of one timestamp: the last is lost and no gap is reported |
| Coverage.FirstPollExact | internal/jobs/querylog.go:247-302 | a first poll of an ordered log that reports no gap stores every copy of every record if and only if no page boundary separates equal timestamps |
| Gaps.GapFreeExactly | internal/jobs/querylog.go:242-315 | for every source, a poll reports no gap if and only if paging came to a proper end and what was read is in touch with the watermark |
| Gaps.ReasonExact | internal/jobs/querylog.go:306-315 | after a proper end each of the three reasons is reported if and only if its condition on the records read holds |
| Gaps.FailsExactly | internal/jobs/querylog.go:247-257 | a poll fails if and only if some page it asks for cannot be read; it then keeps the watermark and every row |
| Mfa.InvHolds | internal/database/mfa.go:42-377 | challenge, history and table invariants hold after every sequence of requests |
| Mfa.OneOpenChallenge | internal/database/mfa.go:65-135 | one unconsumed challenge per user at most, only while MFA is enabled; never more than five failures, and the fifth consumes |
| Mfa.OneSessionEach | internal/database/mfa.go:180-234 | each challenge and each recovery code has led to one session at most |
| Mfa.SpentForever | internal/database/mfa.go:301-369 | a challenge once consumed, by a disable or reset too, never opens again and leads to no further session |
| Mfa.OthersSignedOut | internal/database/mfa.go:236-327 | a committed enable, code replacement or disable revokes every session of the user except the current one and changes no other |
| Mfa.EveryoneSignedOut | internal/database/mfa.go:329-369 | a committed reset revokes every session of the user and changes no other |
| Mfa.RevokedForever | internal/database/mfa.go:236-369 | over every sequence of requests a revoked session stays revoked and keeps its user |
| Mfa.ResetEndsSessions | internal/database/mfa.go:329-369 | no session of a user that existed before a reset is alive at any time after it |
| Mfa.OnlyNewCodes | internal/database/mfa.go:236-299 | after enabling or replacing, the user's codes are exactly those of the new batch, all usable, and nobody else's change |
| Mfa.NothingLeft | internal/database/mfa.go:301-369 | after a disable or reset the user has no enrolment, code or open challenge, and nobody else loses any |
| Mfa.EnrolmentStep | internal/database/mfa.go:42-63 | MFA becomes enabled only by an enable before the enrolment expires, and stops only by a disable or reset of that user |
| Mfa.NewChallengeOpen | internal/database/mfa.go:65-91 | a new challenge is the user's only open one and can be answered exactly until it expires |
| Mfa.FailureCounts | internal/database/mfa.go:125-135 | a wrong answer counts against its challenge alone, which closes at the fifth and not before |
| Mfa.LoginCompletes | internal/database/mfa.go:180-234 | a login needs a live challenge and, with a code, a usable one; it uses up exactly these and gives that user one new session |
| Mfa.ConsumptionExact | internal/database/mfa.go:137-174 | consuming a challenge uses up exactly it and its code, and opens no session |
| Mfa.CleanupExact | internal/database/mfa.go:371-377 | cleaning up removes exactly expired challenges and those consumed over a day ago |
| Mfa.LoginPossible | internal/database/mfa.go:65-234 | an enabled user can log in: a new challenge answered in time leads to a session |
| Mfa.EnrolmentPossible | internal/database/mfa.go:42-268 | a user without MFA can enrol and confirm in time |
| MfaStores.MfaStore.UpsertPendingMfa | internal/database/mfa.go:42-63 | starts or restarts an enrolment and leaves an enabled one alone |
| MfaStores.MfaStore.CreateMfaChallenge | internal/database/mfa.go:65-91 | consumes the user's open challenges and issues a new one, only while MFA is enabled |
| MfaStores.MfaStore.FailMfaChallenge | internal/database/mfa.go:125-135 | counts a failure of a live challenge and consumes it at the fifth |
| MfaStores.MfaStore.ConsumeMfaChallenge | internal/database/mfa.go:137-174 | consumes challenge and code together or neither, and refuses only if no code would do |
| MfaStores.MfaStore.CompleteMfaChallenge | internal/database/mfa.go:180-234 | challenge, code and session in one transaction or none of them |
| MfaStores.MfaStore.EnableMfa | internal/database/mfa.go:236-268 | enables an unexpired enrolment, replaces codes, revokes other sessions and consumes challenges |
| MfaStores.MfaStore.ReplaceRecoveryCodes | internal/database/mfa.go:270-299 | replaces the codes of an enabled user and revokes other sessions |
| MfaStores.MfaStore.DisableMfa | internal/database/mfa.go:301-327 | removes enrolment and codes, consumes challenges and revokes other sessions |
| MfaStores.MfaStore.ResetMfaFromHost | internal/database/mfa.go:329-369 | the same for any existing user, with all sessions revoked |
| MfaStores.MfaStore.DeleteExpiredMfaChallenges | internal/database/mfa.go:371-377 | drops expired challenges and those consumed more than a day ago |
| Compat.ParseSound | internal/adguardcompat/compatibility.go:19-34 | everything accepted is the text of the well-formed version returned |
| Compat.ParseComplete | internal/adguardcompat/compatibility.go:19-34 | the text of every well-formed version, with any build metadata and an optional v, parses back to it |
| Precedence.DecimalLessNumeric | internal/adguardcompat/compatibility.go:36-43 | on canonical digit strings of any length decimalLess is numeric less-than |
| Precedence.SupportIsPrecedence | internal/adguardcompat/compatibility.go:45-67 | supported if and only if well formed, of major 0 or 1 and not preceding 0.107.78 under section 11 of Semantic Versioning 2.0.0; unsupported and known generation likewise |
| Precedence.SupportUpwardClosed | internal/adguardcompat/compatibility.go:55-67 | within majors 0 and 1 no supported version has an unsupported one above it |
| Precedence.ProvisionalExactly | internal/adguardcompat/compatibility.go:69-77 | provisional if and only if supported and neither 0.107.78 nor 0.107.79, and both of these are supported |

## Left out

- HTTP, TLS, JSON decoding and endpoint paths: a node is a state with changes that may be rejected.
- Text of IP addresses, masks, MAC addresses, URLs, hostnames and time zones: library code that is not part of this model; `Subnet` takes the reader as a parameter.
- The rest of `ValidateDesired` and `validateV2Shared`: independent range and format checks.
- Applying.ApplyConfiguration: does not write clients, DNS settings, services, policies and user rules, because these are whole-value writes; `ReadBack` takes what is read back of them as a parameter.
- Stores.Store.CreateDeployment: takes the verdict on a node's capability profile as an input, because the profile is a table of feature flags.
- Updating slices and maps in place during canonicalisation, and aliasing between a document and its canonical form: both are values here.
- Convergence status, archive flags, most timestamps, error texts and audit rows: columns no modelled guard reads; UpdateNodeConvergence is kept as a call that may fail.
- Row locks: transactions are serial, so a claim never skips a locked row.
- Observed-only fields other than version, TLS names and leases: canonical form does not touch them.
- Client display names of query-log records: outside the fingerprint.
- Query-log retention and history retention: they break coverage and occurrence statements.
- Password logins, session expiry, TOTP codes and cryptography: outside the modelled transactions.
- Handoff.NeverTwoServers: assumes that nobody but the executor changes nodes and that the targets cover the running nodes, which the source does not check; `HandoffLimits.TwoServersExactly` gives the exact condition.
- Coverage.GapFreeFetch: assumes an ordered log that stands still during a poll and no page boundary between equal timestamps, which the source does not check; `Coverage.FirstPollExact` shows that the last condition is exact.
- Coverage.EveryRecordStored: assumes the same of every poll, and serial polls.
- Backup, telemetry, statistics, health, high-availability events, routing, flags and user interface.
