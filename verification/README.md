# The durability control plane of RepoArk

RepoArk keeps generations of repository backups and their content-addressed objects on several
storage agents. This project models the code that decides where data lives, moves it, and claims
that it can be restored, and proves what that code guarantees:

* **Erasure coding**: `Erasure`, `ErasureRoundTrip`, `ErasureFacts` (where every byte lies), `ParityCodec` (striping,
  padding, reconstruction).
* **Shard placement, health and movement**: `Agents`, `ShardPlacement`, `ShardHealth`,
  `PlacementResilience`, `ShardReconcile`, `ShardConvergence`; `AgentFacts`, `ZoneFacts` and `ShardFacts` say the same
  in terms of labels, storage reports, zones, shard rows and jobs.
* **Repair**: `Repair`, `RepairFacts`, `ObjectRepair`, `MissingObject` (a repair that must fail), `CasIngest` (hard links and
  rewriting in place).
* **Generation replication**: `Replication`, `ReplicationAgreement`, `ReplicaFacts` (a round and a report in terms of
  agents, rows and jobs), `SecondTransfer` (an agent sent the same generation twice).
* **Jobs, leases, approvals**: `JobStore` (the transactions), `JobStoreClass` (the store as an object
  refining them), `JobStoreRuns` (what every run keeps), `JobTiming` (when jobs and approvals may move), `JobFailures` (overlapping failure reports, jobs
  nobody can finish), `JobListing` (what reconcilers see of the table).
* **References, leases and collection**: `ObjectRefs`, `RefFacts`, `CasStore`, `BackupCollection` (which files keep
  which objects); `ShardHandover` puts orders, jobs, installs,
  completions, protect jobs and collections into one machine over the job store and the reference tables,
  `ShardSafety` says when its records can be trusted, `HandoverFacts` the same row by row, and `ShardLoss` has runs that
  lose a shard.
* **Anti-entropy between stores**: `Inventory`, `InventoryAgreement`, `CasManifest` (the manifest as text),
  `CasSync`, `CasInstall`, `SyncFacts` (what is packed and what is taken), `CasReconcile`, `SyncOrders` (when a
  transfer is ordered), `CasTransfer` (one transfer and runs of them), `CasConvergence`;
  `CrowdedArchive` (manifests that are too long), `DamagedArchive` and `StaleSuppression` (a pool that one departure unsettles)
  are inputs on which a round fails.
* **Transfer protocol**: `UploadServer`, `UploadClient`, `Download`, `Frames`; `ExchangeFacts` takes them, and ingesting,
  request by request.
* **Audit**: `Ledger`, `LedgerText` (the line as text), `Checkpoints`, `RecentRecords`; `JsonText` and `Float64` say what a value becomes when it is
  written as JSON and read back.

`Prelude`, `Finite` and `Ordering` hold shared vocabulary. `dafny verify dfyconfig.toml` checks everything.

Loops of the source are loops here, objects whose methods update fields are classes, and each such
method is tied by its `ensures` to a specification function about which the properties are proved. The modules whose
names end in `Facts`, and `JobTiming`, `BackupCollection`, `SyncOrders` and `LedgerText`, state what these functions decide
without them: in terms of the rows, files, labels, digests and times that a caller sees.

## Idealisations

* SHA-256 is a function parameter under the law `Prelude.Digest`: different contents have different
  digests, and the hexadecimal text is lower case. Hexadecimal text itself is an instance, on bytes and on
  text (`Prelude.HexIsDigest`, `Prelude.TextHexIsDigest`).
* The Reed-Solomon kernel is a pair of functions under the law `Erasure.MaximumDistance` (any `k` shards of
  a stripe determine it); key agreement and the AEAD are functions under `Frames.Lawful`. `ParityCodec` and
  `Frames.OpenSuiteIsLawful` show that these laws can be met.
* Times are integers, a free-space percentage is a real number, tar and gzip are datatypes, and a transaction of
  the database is one atomic step. The two statements of `Fail`, which the source does not run in one
  transaction, are two events: a read, and a write that carries what the read returned.
* In the audit ledger, values are written and read back concretely: texts are runes and stray bytes, whole numbers
  go through 64-bit floating point and its shortest decimal text, objects come back with sorted keys, and a line
  has its length in bytes. The manifest of a synchronisation archive is text too, and its length counts. Elsewhere
  JSON is a datatype.
* Identities drawn at random (leases, transfers, jobs) are fresh.
* Where the in-memory store and the SQL store differ, the SQL store is followed.
* The iteration order of maps is an arbitrary choice; results hold for every choice.

## Where the code falls short of its documentation

Each of these is a statement about the code as it is: the first lemmas named give the exact condition or the
consequence for all inputs, the last one an input or a run.

* The chunk handler (`internal/controlplane/agent_server.go:636-657`) writes every chunk at the start of the
  part file, not at the declared offset that `internal/controlplane/remote_store.go:182-185` promises. Ready
  still implies the right bytes, but no source longer than one chunk can ever finish
  (`UploadClient.UploadFile`, `UploadServer.NeverOutgrows`), and a rejected chunk can damage what was received
  (`UploadServer.RejectedChunkHarmlessIff`, `UploadServer.RejectedChunkDamages`).
* Even with chunks at their offsets, a part file that an earlier attempt left under the same transfer, encrypted
  under another key, makes every later attempt of the job fail until the transfer expires
  (`UploadClient.UploadAttempts`, `UploadClient.ForeignRefused`; `UploadClient.TransferFromEmpty` runs a transfer
  from its beginning with and without the first chunk of an attempt that got no further).
* A source packs any number of objects, a target reads no more than eight mebibytes of manifest
  (`internal/cassync/cassync.go:124`): beyond some 80,000 to 95,000 objects a transfer fails at every attempt, and
  since parcels grow while a plan runs, whether a pool settles can depend on the order of the transfers
  (`CasInstall.FaithfulInstallsIff`, `CasConvergence.RoundSettlesIff`; `CrowdedArchive.CrowdedTransferFails`,
  `CrowdedArchive.CoverageIsNotEnough`).
* One damaged object under a requested prefix makes a source send nothing, and one damaged copy on the target stops
  the installation where it is met (`internal/cassync/cassync.go:64-71` and `:164-169`; `CasTransfer.Synchronise`,
  `CasConvergence.CoverageIsExact`; `DamagedArchive.DamagedSourceSendsNothing`,
  `DamagedArchive.DamagedTargetTakesNothing`).
* `Ingest` accepts an existing object that agrees in size only and then replaces the sound file by a link to
  it (`CasIngest.IngestPreservesIff`, `CasIngest.DamageSpreads`).
* A repair rewrites the damaged file but never creates a missing one (`ObjectRepair.RepairRestores`,
  `ObjectRepair.NeverCreated`, `MissingObject.MissingFileNotRestored`).
* A failure report reads the attempt count and writes in separate statements, and leases are fenced per owner.
  When the owner was granted the job again in between, a report on the final attempt leaves a job that nobody can
  lease, retry or replace (`JobFailures.ReadStaleIffRegranted`, `JobFailures.FailureStrandsIff`,
  `JobFailures.StrandedForever`; `JobFailures.StrandingRun` is a run from the empty store, with two local workers).
* `Enqueue` trusts a status and an attempt count supplied by the caller, and agents supply them for follow-up jobs
  (`internal/controlplane/agent_server.go:922-951`): a job filed as running is never finished
  (`JobStoreRuns.EnqueueKeepsInvIff`, `JobFailures.UnownedForever`, `JobFailures.UnownedRun`).
* `AdjustObjectRef` moves a count without an owner; one call leaves an owner unprotected
  (`ObjectRefs.AdjustKeepsBalanceIff`, `ObjectRefs.AdjustUnprotects`). The agent API offers it; no worker uses it.
* Garbage collection (`internal/app/app.go:606-619`) decides what to keep once, before it deletes, and goes on without
  protected digests when the control plane cannot be asked. A shard whose install succeeded can be lost to a
  collection that made its survey before the shard was ordered, without the tables, or after the lease expired
  and before the reference was recorded; and a protect job
  (`internal/controlplane/erasure_distributed.go:78-93`) stores its shards without any lease
  (`ShardSafety.CareIsExact`, `ShardSafety.SweepableIff`; `ShardLoss.EarlySurveyLoses`,
  `ShardLoss.LateSurveyLoses`, `ShardLoss.UnleasedLoses`).
* A succeeded synchronisation job keeps suppressing the transfer between two stores whose inventories have not
  changed since, even when the pool, and with it the desired agents, has
  (`internal/controlplane/cas_reconcile.go:130-138`; `CasConvergence.RoundSettlesIff`,
  `StaleSuppression.WhileAllAreThere`, `StaleSuppression.AfterOneLeft`, `StaleSuppression.Happens`).
* Reconcilers ask for thousands of jobs and get the hundred newest, so a hundred newer jobs make them forget what is
  under way or done, and of several jobs under one target the oldest listed one decides
  (`internal/controlplane/sqlstore.go:355-358`; `JobListing.KnownIff`, `CasReconcile.SuppressionEnds`,
  `JobListing.Forgotten`, `JobListing.RunningJobHidden`).
* The install job of a replicated generation carries its transfer in its target and so does not make its agent busy
  for the reconciler, which sends the generation again (`internal/controlplane/agent_server.go:756-779`; `Replication.BusyIff`,
  `SecondTransfer.PlannedIff`, `SecondTransfer.SentTwice`).
* With this host included, the shard reconciler places shards on it, and the health report never counts them
  (`ShardConvergence.EligibleIsCountedIff`, `ShardConvergence.LoneHostUnrecoverable`).
* A record that does not fit a scanner line, or whose texts and fields change when JSON is read back, is appended
  without an error and makes the ledger unverifiable (`Ledger.AppendVerifiesIff`, `JsonText.ReloadIff`; invalid
  UTF-8: `Ledger.InvalidTextSpoils`, a number beyond the mantissa: `Ledger.WideNumberSpoils`, a record value with
  unsorted members: `Ledger.UnsortedRecordSpoils`, eight mebibytes of text: `Ledger.LongTextSpoils`).

## Model

| member | source | states |
|---|---|---|
| Erasure.FillBlock | internal/erasure/erasure.go:83-96 | one read into the reused buffer leaves the next bytes of the file followed by zeros, whatever the buffer held before |
| Erasure.WriteStripes | internal/erasure/erasure.go:83-119 | when the loop ends each shard file is exactly its column of the striped, zero-padded file, and the block count is the number of stripes; no stripe for an empty file or after an exact multiple |
| Erasure.EncodeFile | internal/erasure/erasure.go:44-157 | an invalid configuration is refused; a new destination receives manifest and shard files of the encoding; an existing one is never changed and is accepted only for the same object |
| Erasure.Verify | internal/erasure/erasure.go:171-195 | succeeds exactly when at least the data-shard number of listed files has the recorded size and digest |
| Erasure.DecodeBlocks | internal/erasure/erasure.go:250-279 | the block-bounded loop equals decoding the open shard files stripe by stripe with truncation to the recorded size, with the short-read, codec and truncation errors |
| Erasure.Reconstruct | internal/erasure/erasure.go:199-298 | the whole reconstruction, with every error case, is the function the round-trip lemmas are about |
| ErasureRoundTrip.DecodeRows | internal/erasure/erasure.go:250-279 | decoding any stream set with at least `k` columns of the encoded rows returns the source: partial last stripe, exact multiple and empty file included |
| ErasureRoundTrip.RoundTrip | internal/erasure/erasure.go:199-298 | whatever happened to the shard files, reconstruction returns the original bytes if `k` of them survive and reports exactly how many are left otherwise |
| ErasureRoundTrip.SurvivesParityLoss | internal/erasure/erasure.go:199-231 | losing or corrupting at most the parity number of shards loses nothing |
| ErasureRoundTrip.VerifyPredictsReconstruction | internal/erasure/erasure.go:171-195 | the cheap check passes exactly when the reconstruction would return the original |
| ErasureFacts.EncodedBytes | internal/erasure/erasure.go:83-119 | where every byte of an object lies: data shard i holds, in its block j, piece i of stripe j, and zeros behind the object's end |
| ErasureFacts.ReconstructionEnds | internal/erasure/erasure.go:199-298 | from the directory alone: which files count, when reconstruction gives up and with what error, and that what it returns has the recorded length and digest |
| ParityCodec.OneParityIsMaximumDistance | internal/erasure/erasure.go:199-298 | a concrete one-parity code satisfies the law assumed of the Reed-Solomon kernel, so the round trip is not vacuous |
| Prelude.HexIsDigest | internal/cas/cas.go:99-114 | hexadecimal text satisfies the law assumed of digests |
| Prelude.TextHexIsDigest | internal/objectinventory/inventory.go:100-107 | so does the hexadecimal form of text |
| Agents.FitnessChain | internal/controlplane/replication.go:293-341 | fit to receive data implies counted as durable, which implies readable; room for an object is room for a smaller one |
| AgentFacts.HealthDecides | internal/controlplane/replication.go:293-328 | what a storage report must say for an agent to be readable, to be counted and to receive data |
| AgentFacts.RoomForObject | internal/controlplane/replication.go:330-341 | room for an object is what remains above the reserve, where free space is known |
| AgentFacts.ListsDecide | internal/controlplane/replication.go:385-402 | an agent is excluded or allowed by its name up to blanks and letter case; an empty list allows all |
| AgentFacts.LabelsDecideDomains | internal/controlplane/replication.go:370-383 | two labelled agents share a failure domain if and only if the trimmed values of the label are equal |
| AgentFacts.UnlabelledStandAlone | internal/controlplane/replication.go:370-383 | without a usable label an agent has no domain of that name, and for shards a domain of its own |
| AgentFacts.LabelsDecidePools | internal/controlplane/cas_reconcile.go:158-169 | the storage pool is the trimmed value of the label; everything else is the default pool |
| AgentFacts.LeadingIntReads | internal/controlplane/replication.go:343-361 | a bandwidth label given as text counts as the number it begins with, signed or not |
| ShardPlacement.DesiredShardAgents | internal/controlplane/erasure_distributed.go:302-356 | terminates with exactly min(copies, agents) distinct agents, every one the rendezvous choice of its turn in the round robin over the domains |
| ZoneFacts.PlaceInZones | internal/controlplane/erasure_distributed.go:302-356 | for agents with zone labels: copies go round the zones in order, to the unused agent with the highest score, and as many as there are zones lie in pairwise different zones |
| PlacementResilience.CopiesFollowTurns | internal/controlplane/erasure_distributed.go:326-342 | while domains remain, each copy lands in the domain whose turn it is, although agents of that domain may have been used before |
| PlacementResilience.FirstCopiesSpread | internal/controlplane/erasure_distributed.go:326-342 | the first min(copies, domains) copies of a shard lie in pairwise different domains |
| ShardHealth.EvaluateSet | internal/controlplane/erasure_distributed.go:415-468 | the evaluator loops compute the verdict defined by: too few indices, too few domains, or a domain whose loss leaves too few indices |
| ZoneFacts.JudgeZones | internal/controlplane/erasure_distributed.go:427-471 | the verdict in terms of rows, agents and zone labels: unrecoverable when fewer than k indices have a ready counted copy; healthy when there are enough zones and every zone can be lost |
| ShardFacts.CountedIff | internal/controlplane/erasure_distributed.go:387-407 | copies count on agents seen in time, on durable storage, in the shard pool |
| ShardFacts.JudgeSet | internal/controlplane/erasure_distributed.go:387-471 | the verdict over the agent table, on the copies that count |
| PlacementResilience.ResidueCount | internal/controlplane/erasure_distributed.go:326-342 | how many shards the round robin puts first in a given domain |
| PlacementResilience.DomainLossBound | internal/controlplane/erasure_distributed.go:437-468 | a fully placed set of k+m shards is judged resilient if and only if there are two domains and either two copies per shard or ceil((k+m)/domains) <= m |
| PlacementResilience.SingleCopyVerdict | internal/controlplane/erasure_distributed.go:437-468 | the complete verdict on a fully placed set with one copy per shard, with the configured minimum of domains |
| PlacementResilience.SurplusKeepsResilience | internal/controlplane/erasure_distributed.go:437-468 | extra copies, such as those left where the object was encoded, never make a resilient set fragile |
| ShardReconcile.SplitPools | internal/controlplane/erasure_distributed.go:145-170 | who may send and who may receive: the members of the pool by their condition, and this host, where it is included, by its condition alone |
| ShardReconcile.SelectSource | internal/controlplane/erasure_distributed.go:370-385 | the chosen source is the smallest readable holder of a ready shard with the expected digest; none is reported exactly when there is none |
| ShardReconcile.PlanTarget | internal/controlplane/erasure_distributed.go:216-231 | a transfer is planned exactly when the target lacks the shard, somebody can supply it, it fits and none is under way; a source is never its own target |
| ShardReconcile.PlanSet | internal/controlplane/erasure_distributed.go:178-253 | for every shard with a copy, exactly the due transfers to its desired agents, one each, given the jobs that the listing shows under way |
| ShardFacts.OrderShards | internal/controlplane/erasure_distributed.go:145-253 | a round over one set in terms of agents, shard rows and jobs: who may send and receive, and a transfer to exactly the planned agents that lack the shard, can hold it and have no listed job for it, from the smallest identity that has the right digest |
| ShardFacts.UnderWayIff | internal/controlplane/erasure_distributed.go:228-231 | a transfer is under way if and only if one of the hundred newest jobs has exactly its shard, index and target, queued or running |
| ShardConvergence.RoundPlaces | internal/controlplane/erasure_distributed.go:192-253 | after one round, all transfers installed, every desired agent holds its shard if each missing copy had a supplier and room |
| ShardConvergence.EligibleIsCountedIff | internal/controlplane/erasure_distributed.go:145-170 | every placement target is counted by the health report if and only if this host is not one of them |
| ShardConvergence.RoundIsHealthy | internal/controlplane/erasure_distributed.go:129-471 | one such round makes the health evaluator judge the set healthy whenever the pool has the domains for it and this host is no placement target; placement, reconciler and evaluator choose their agents separately in the source |
| Replication.BuildPools | internal/controlplane/replication.go:84-117 | the three agent maps of one pass: admitted, online sources, eligible targets |
| Replication.Tally | internal/controlplane/replication.go:136-156 | ready copies, healthy copies and healthy domains of a generation |
| Replication.ListTargets | internal/controlplane/replication.go:192-221 | the candidates are exactly the eligible agents without a ready copy and with room, arranged by the five-level comparison, which is a strict total order |
| Replication.ReconcileGeneration | internal/controlplane/replication.go:122-268 | nothing is queued for a satisfied or unreadable generation; otherwise the first `need` targets are paired round robin with the sources, skipping those for which a listed job places the generation |
| ReplicaFacts.PlanRound | internal/controlplane/replication.go:131-268 | a round in terms of agents, rows and jobs: which copies count, the order of senders and receivers, and exactly the transfers queued: as many of the best receivers as the largest shortage, senders in turn, none where a listed job is placing the generation |
| ReplicaFacts.ReceiveOrderIff | internal/controlplane/replication.go:198-221 | a receiver that opens a domain comes first, then bandwidth, free percentage, free bytes and identity |
| Replication.BusyIff | internal/controlplane/replication.go:122-130 | an agent is busy for a generation if and only if a listed, active placing job has exactly the generation and the agent for its target |
| SecondTransfer.PlannedIff | internal/controlplane/replication.go:247-267 | a chosen target is sent the generation if and only if no listed job has that target, whatever is being installed there |
| SecondTransfer.SentTwice | internal/controlplane/agent_server.go:756-779 | a table with a running install job, and a plan that sends its agent the generation again |
| Replication.HealthReport | internal/controlplane/replication.go:466-535 | all six counters: generations, healthy ones, deficits, ready copies, ready copies on durable online agents, shortages of domains |
| Replication.ReportAddsUp | internal/controlplane/replication.go:466-535 | every generation is healthy or in deficit, one short of domains is in deficit, and no more copies are online than ready |
| ReplicaFacts.ReportOnOne | internal/controlplane/replication.go:466-535 | what the report says of one generation: healthy if and only if at least one, and enough, copies are on agents seen in time with durable storage, in enough domains |
| Replication.SelectRestoreAffinity | internal/controlplane/replication.go:409-448 | returns a readable holder of a ready copy, the original owner if it is one, and fails exactly when there is none |
| Replication.RestorableIff | internal/controlplane/replication.go:422-436 | a restore may go to this host, or to an agent seen within the timeout whose storage is not unhealthy, if it has a ready copy; to no other |
| ReplicaFacts.PathLeads | internal/controlplane/worker.go:602-610 | a path names its agent up to the first slash; any other path names this host |
| ReplicaFacts.RestoreFromPath | internal/controlplane/replication.go:409-448 | the agent that the path names is chosen whenever it has a ready copy, was seen in time and can be read |
| ReplicationAgreement.SatisfiedIsHealthy | internal/controlplane/replication.go:157-163 | with the minimum of at least one healthy copy that the configuration demands (internal/config/config.go:717), a generation the reconciler leaves alone is reported healthy |
| ReplicationAgreement.HealthyIsRestorable | internal/controlplane/replication.go:466-535 | every copy the report counts can serve a restore, so a generation reported healthy is restorable |
| ReplicationAgreement.NoRedundantTransfer | internal/controlplane/replication.go:247-267 | no transfer goes to an agent that already holds a ready copy that counts, or from an agent to itself |
| ReplicationAgreement.RoundProgress | internal/controlplane/replication.go:131-268 | a round whose transfers succeed meets both copy counts at once and adds a domain whenever one is lacking |
| ReplicationAgreement.Converges | internal/controlplane/replication.go:131-268 | with a readable copy and enough roomy agents and domains, max(1, MinFailureDomains) rounds satisfy factor, healthy minimum and domains |
| JobStoreClass.Store.Enqueue | internal/controlplane/sqlstore.go:193-236 | the insert happens unless the key is active or the id taken; otherwise the caller gets the active job |
| JobTiming.FiledIff | internal/controlplane/sqlstore.go:193-236 | a job is filed if and only if its identity is free and no active job has its kind, target and affinity; the defaults it is given |
| JobTiming.FollowUpIff | internal/controlplane/agent_server.go:922-951 | an agent may file one kind of follow-up, for the target of the job it holds, bound to itself |
| JobStoreClass.Store.Lease | internal/controlplane/sqlstore.go:238-295 | expired leases on the final attempt are failed, then exactly the foremost leasable jobs, as many as asked for or as there are, are granted |
| JobTiming.GrantsWaitingOnly | internal/controlplane/sqlstore.go:254 | a lease call grants only jobs whose time has come, with attempts left, for this owner, queued or abandoned by an expired lease |
| JobTiming.UrgentFirst | internal/controlplane/sqlstore.go:254 | no job that could be had is left behind for one of lower priority, or for a younger one of the same priority |
| JobTiming.TakesAsAsked | internal/controlplane/sqlstore.go:238-295 | as many jobs as asked for, or as there are, and one where none is asked for |
| JobTiming.NoLeaseBeforeRetryTime | internal/controlplane/sqlstore.go:254-353 | in every run: after a failure report with a delay, short of an operator retry, no lease call before the delay is over grants the job |
| JobStoreClass.Store.Complete | internal/controlplane/sqlstore.go:297-330 | only the holder completes; a restore completes only by turning its scheduled approval into an executed one in the same step |
| JobStoreClass.Store.ReadAttempts | internal/controlplane/sqlstore.go:332-338 | the read of a failure report: the attempts of a job the owner holds |
| JobStoreClass.Store.WriteFailure | internal/controlplane/sqlstore.go:339-353 | its write: for the holder, the job fails or is queued again by the count that the read returned, whatever happened since |
| JobStoreClass.Store.Fail | internal/controlplane/sqlstore.go:332-353 | read and write without interruption: the holder's job fails exactly on its final attempt |
| JobStoreClass.Store.RetryJob | internal/controlplane/sqlstore.go:379-389 | a failed job starts over unless the key has become active meanwhile |
| JobTiming.FailureEffect | internal/controlplane/sqlstore.go:332-353 | the job after a failure report: queued for the time of the delay, or failed, without owner or lease |
| JobTiming.RetriedRunsAgain | internal/controlplane/sqlstore.go:379-389 | a job that an operator retries has all its attempts again and can be leased at once |
| JobStoreClass.Store.ApproveRestore | internal/controlplane/sqlstore.go:734-760 | approval of a pending request, expiry of an overdue one, refusal of the requester under the distinct rule |
| JobTiming.ApprovalEffect | internal/controlplane/sqlstore.go:734-760 | a pending request is granted before its deadline and expires from its deadline on; the requester's own call does nothing under the distinct rule |
| JobTiming.ApprovedInTime | internal/controlplane/sqlstore.go:734-793 | in every run from the empty store, what is approved, scheduled or executed was granted in time by the one on record, and what expired was called on after its deadline |
| JobStoreClass.Store.ScheduleRestore | internal/controlplane/sqlstore.go:761-771 | scheduling happens only from approved and before the deadline |
| JobStoreRuns.EnqueueKeepsInvIff | internal/controlplane/sqlstore.go:193-236 | accepting a caller-supplied job keeps the store invariant exactly when it is not running and its attempts lie between zero and the maximum; the code checks neither |
| JobStoreRuns.RunKeepsInv | internal/controlplane/sqlstore.go:97-353 | in every run: at most one active job per kind, target and affinity; running if and only if leased; the owner matches the affinity; attempts never exceed the maximum |
| JobStoreRuns.UnexpiredLeaseUntouched | internal/controlplane/sqlstore.go:238-295 | an unexpired lease and its job are untouched by any lease call |
| JobStoreRuns.DisplacedOwnerPowerless | internal/controlplane/sqlstore.go:297-353 | in every run a displaced different owner can neither complete nor fail the job until it is granted the job again |
| JobStoreRuns.ChangeConsumesWork | internal/controlplane/sqlstore.go:238-353 | every change of a job without a retry strictly decreases 2*(max-attempts)+rank, and a lease uses up one attempt |
| JobStoreRuns.BoundedWork | internal/controlplane/sqlstore.go:238-353 | in any run without operator retries a job changes at most 2*max+1 times and is leased at most max times |
| JobFailures.ReadStaleIffRegranted | internal/controlplane/sqlstore.go:332-353 | in every run, a failure report that takes effect judges by a current attempt count unless its owner was granted the job again between its read and its write; short of an operator retry, the count is stale if and only if that happened |
| JobFailures.FailureStrandsIff | internal/controlplane/sqlstore.go:332-353 | without such a grant the job fails exactly on its final attempt; short of a retry, the report strands the job if and only if this is the final attempt and there was such a grant |
| JobFailures.StrandingRun | internal/app/app.go:1175 | a run from the empty store that strands a job: two local workers under the one shared identity |
| JobFailures.StrandedForever | internal/controlplane/sqlstore.go:238-295 | a stranded job stays as it is in every later run, operator retries included, and its key can never be enqueued again |
| JobFailures.UnownedForever | internal/controlplane/sqlstore.go:238-353 | so does a job filed as running without a lease |
| JobFailures.UnownedRun | internal/controlplane/agent_server.go:922-951 | a run from the empty store in which an agent's follow-up job is one |
| JobStoreRuns.ApprovalStep | internal/controlplane/sqlstore.go:734-793 | approval statuses only move along the documented edges; scheduling happens before expiry; under the distinct rule the approver is not the requester |
| JobStoreRuns.TerminalApprovals | internal/controlplane/sqlstore.go:734-793 | executed and expired approvals stay so in every run |
| JobStoreRuns.RunKeepsApprovals | internal/controlplane/sqlstore.go:297-330 | from the empty store, at most one restore job per approval ever succeeds, and nobody approves their own restore under the distinct rule |
| JobStoreRuns.ScheduledInTime | internal/controlplane/sqlstore.go:761-771 | in every run from the empty store, an approval that stands as scheduled or executed was scheduled before its deadline, which never moves |
| ObjectRefs.Tables.EnsureObjectRef | internal/controlplane/sqlstore.go:869-897 | owner row and count change together, once per owner; blank kind and size keep the recorded ones |
| ObjectRefs.Tables.ReleaseObjectRef | internal/controlplane/sqlstore.go:899-926 | removing an owner lowers the count, never below zero |
| ObjectRefs.Tables.ProtectedObjectDigests | internal/controlplane/sqlstore.go:1007-1022 | exactly the digests with a positive count or an unexpired lease |
| RefFacts.EnsureEffect | internal/controlplane/sqlstore.go:869-897 | row by row: a new owner is recorded once, with the digest trimmed and in lower case, and counted; nothing else changes |
| RefFacts.ReleaseEffect | internal/controlplane/sqlstore.go:899-926 | row by row: a recorded owner is removed and counted down; nothing else changes |
| RefFacts.ProtectedIff | internal/controlplane/sqlstore.go:1007-1022 | a digest is protected if and only if its count is positive or a lease on it ends later than now |
| RefFacts.LastOwnerLeaves | internal/controlplane/sqlstore.go:899-1022 | where counts equal owners, an owner that leaves ends the protection if and only if it was the last one and no lease is open |
| ObjectRefs.AdjustKeepsBalanceIff | internal/controlplane/sqlstore.go:821-867 | the unowned adjustment keeps count equal to owners exactly when it is refused or adds zero |
| ObjectRefs.RunKeepsBalance | internal/controlplane/sqlstore.go:869-926 | with ensure and release alone every count equals the number of owners in every run |
| ObjectRefs.AdjustUnprotects | internal/controlplane/sqlstore.go:821-867 | one adjustment after one reference leaves an owner whose object nothing protects |
| ObjectRefs.ProtectedThroughHandover | internal/controlplane/sqlstore.go:967-1022 | in every run of the tables that keeps the handover discipline, a leased digest is protected at every moment before the lease expires, and, once referenced, at every moment |
| ShardHandover.InstallShard | internal/controlplane/worker.go:383-400 | extraction and the search of the manifest; an attempt goes on exactly when both succeed, and leaves every earlier object alone in any case |
| ShardHandover.ExtractedIsPresent | internal/controlplane/worker.go:383-400 | an attempt that goes on has the shard's true bytes on its disk |
| ShardHandover.StepIsDisciplined | internal/controlplane/agent_server.go:150-168 | a step that drops or replaces a transfer's lease finds the transfer's reference recorded, and no step releases a reference |
| ShardHandover.RunKeepsInv | internal/controlplane/worker.go:339-415 | in every run of orders, job store calls, finalizes, install and protect attempts (failed, repeated, unheard), completions, releases and collections, each order has its lease or its reference, and every succeeded install, pending release and shard row its reference |
| ShardHandover.RunIsDisciplined | internal/controlplane/agent_server.go:150-168 | every such run is a run of the reference tables that keeps the handover discipline of every transfer ordered in it |
| ShardHandover.OrderedShardIsKept | internal/controlplane/erasure_distributed.go:232-243 | after its order a shard is kept by every survey that consults the tables before the lease expires, and by every one that consults them at all once an attempt recorded the reference |
| ShardHandover.InstalledIsProtected | internal/controlplane/worker.go:404-410 | the shards of succeeded installs and of shard rows are protected at every moment |
| ShardSafety.RecordedShardsStay | internal/controlplane/erasure_distributed.go:78-93 | in every run of careful steps every shard row, from installs and from protect jobs, names an object that is on its agent with its true bytes |
| ShardSafety.CareIsExact | internal/cas/cas.go:332-423 | from a state in which everything is safe, a step leaves collections, references and rows that can end in a broken record if and only if it was not careful, as long as the attempts that are pending then are served |
| ShardSafety.TimelyShardsStay | internal/app/app.go:606-619 | surveys that consult the tables in time, and protect jobs that do not overlap collections nor store over damaged files, are careful steps, so that the records stay true |
| ShardSafety.SweepableIff | internal/cas/cas.go:332-423 | a collection under way can remove an object if and only if its survey, with the tables as they were then, neither found its content nor saw it protected |
| HandoverFacts.FateIsSealed | internal/app/app.go:606-619 | the same in terms of files and tables: no regular file of the minimal size, no sidecar, below a backup root; no positive count and no open lease |
| HandoverFacts.RowsAreThere | internal/cas/cas.go:332-423 | in every run of careful steps, a shard row names a file on its agent that has the digest it is named by, and no collection under way will remove it |
| HandoverFacts.FinalizeFiles | internal/controlplane/agent_server.go:756-779 | a finalize files one install job, bound to the target of the transfer, queued at once, unless one is active |
| HandoverFacts.ReferenceIsRecorded | internal/controlplane/sqlstore.go:869-897 | an attempt whose agent still holds its job records one owner row; any other changes no table |
| ShardLoss.EarlySurveyLoses | internal/app/app.go:606-619 | a run in which a survey that consulted the tables before the order costs a recorded shard |
| ShardLoss.LateSurveyLoses | internal/app/app.go:606-619 | a run for every survey between extraction and reference that did not consult the tables or came after the lease's expiry |
| ShardLoss.UnleasedLoses | internal/controlplane/erasure_distributed.go:78-93 | a run for every survey, though it consults the tables, between the storing and the reference of a protect job |
| CasStore.Store.GCProtected | internal/cas/cas.go:332-423 | removes exactly the objects neither reachable nor protected, keeps the rest unchanged, and a dry run reports the same counts and removes nothing |
| BackupCollection.KeptIff | internal/cas/cas.go:332-384 | an object is kept if and only if it is protected or has the content of a regular file of the minimal size, no sidecar by its path, below a root that is given, exists and lies outside the store |
| BackupCollection.CollectBackups | internal/cas/cas.go:332-423 | after a collection exactly these objects are left |
| BackupCollection.IngestedSurvives | internal/cas/cas.go:116-423 | the object that ingesting a file stored survives every collection with the same minimal size that walks the file, unless it is a sidecar |
| CasStore.TransferSurvivesCollection | internal/cas/cas.go:332-423 | in the runs of the tables that keep the discipline, a collection that consults them keeps a shard in transfer before its lease expires, and from its reference on at every moment |
| CasIngest.FileSystem.Ingest | internal/cas/cas.go:116-207 | the effect on paths and shared inodes in every branch |
| ExchangeFacts.IngestAnswers | internal/cas/cas.go:116-207 | what ingesting answers and leaves, from the file's size and the object that is there already |
| CasIngest.IngestPreservesIff | internal/cas/cas.go:144-205 | an ingested file reads as before if and only if its object was new, held the same bytes, or could not be linked; an existing object is compared by size only |
| CasIngest.DamageSpreads | internal/cas/cas.go:144-205 | two files with one content: the first is ingested, its object is damaged, the second is ingested, and the content is gone |
| CasIngest.IngestIntoIntactStore | internal/cas/cas.go:116-207 | in an intact store ingesting changes the content of no file and leaves the store intact |
| CasIngest.LinkedFileIsRepaired | internal/controlplane/repair_distributed.go:95-100 | rewriting a damaged object in place restores every file that was linked into the store, and no other file changes |
| Inventory.BuildStore | internal/objectinventory/inventory.go:43-98 | fails exactly when some file name, trimmed and in lower case, is no digest; otherwise the inventory covers the files walked |
| Inventory.Build | internal/objectinventory/inventory.go:70-98 | one segment per occupied prefix, in order, with the count, size and hash of its sorted lines |
| Inventory.DivergentPrefixes | internal/objectinventory/inventory.go:110-135 | the sorted prefixes whose segments differ or exist on one side only |
| InventoryAgreement.TextInjective | internal/objectinventory/inventory.go:76-107 | the hashed text of a segment determines its digests and sizes |
| InventoryAgreement.DivergenceIsExact | internal/objectinventory/inventory.go:43-135 | a prefix is reported if and only if the stores differ under it in some digest or size |
| CasSync.DesiredAgents | internal/cassync/cassync.go:190-214 | the first min(factor, pool) agents in rendezvous order, characterised by rank in the set of agents |
| CasSync.OrderIrrelevant | internal/cassync/cassync.go:190-214 | the choice does not depend on the order of the pool |
| CasSync.JoiningDisplacesOne | internal/cassync/cassync.go:190-214 | an agent that joins displaces at most one chosen agent |
| CasSync.LeavingKeepsChosen | internal/cassync/cassync.go:190-214 | an agent that leaves displaces no other chosen agent |
| SyncFacts.DesiredIff | internal/cassync/cassync.go:190-214 | an agent is desired if and only if fewer than factor agents of the pool have a higher score text, or the same and a smaller identity |
| CasManifest.ManifestLength | internal/cassync/cassync.go:17-93 | the length of a manifest depends on the packed objects alone, not on their order |
| CasManifest.SmallFits | internal/cassync/cassync.go:124 | up to 79,000 objects always fit the limit |
| CasManifest.LargeDoesNotFit | internal/cassync/cassync.go:124 | from 95,326 objects on none do |
| CasSync.Archive | internal/cassync/cassync.go:28-97 | the archive holds exactly the valid objects of the requested prefixes, taken in lower case, that belong on the target, under their true digests, with a manifest of them sorted by digest, and fails exactly when one of them is corrupt |
| CasSync.ArchiveDigests | internal/cassync/cassync.go:247-302 | succeeds exactly when every requested digest, trimmed and folded, is well formed and intact in the store, and then holds just those objects |
| SyncFacts.PackedIff | internal/cassync/cassync.go:28-71 | an object is packed if and only if its name is a digest, a requested prefix in either case begins it, and the target is desired |
| SyncFacts.SendNamed | internal/cassync/cassync.go:247-302 | digests asked for by name, trimmed and folded, are all sent, or none |
| CasInstall.Store.Extract | internal/cassync/cassync.go:101-188 | the exact condition of success, the length of the manifest included; success yields the union with existing objects winning; no existing object is ever altered, nothing is added that was not packed or is false, and a refused archive changes nothing |
| SyncFacts.InstallableIff | internal/cassync/cassync.go:101-188 | when an archive installs, entry by entry: true digests, none twice, readable manifests, no damaged copy on the target, and every listed object there with the listed length |
| CasInstall.FaithfulInstallsIff | internal/cassync/cassync.go:28-188 | whatever one store packs installs into another if and only if the manifest of the packed objects fits the limit and the copies that are there are intact |
| CasInstall.InstallingTwice | internal/cassync/cassync.go:99-100 | extraction is idempotent |
| JobListing.KnownIff | internal/controlplane/cas_reconcile.go:94-100 | of the listed jobs under a target, the oldest decides |
| JobListing.Forgotten | internal/controlplane/sqlstore.go:355-378 | a hundred newer jobs hide every earlier one from the reconcilers |
| JobListing.RunningJobHidden | internal/controlplane/sqlstore.go:355-378 | a table whose running transfer no reconciler sees |
| JobListing.ActiveJobExists | internal/controlplane/erasure_distributed.go:278-285 | true exactly when a listed, active job of the kind has the target |
| CasReconcile.PlanPair | internal/controlplane/cas_reconcile.go:115-150 | one order exactly when source and target differ, their stores diverge, the divergent bytes fit and no listed job stands for the transfer |
| CasReconcile.SuppressionEnds | internal/controlplane/cas_reconcile.go:130-138 | a transfer is no longer held back once a hundred newer jobs are listed |
| SyncOrders.TargetsDifferIff | internal/controlplane/cas_reconcile.go:130 | between two stores, jobs for two pairs of inventories have one target if and only if both roots agree in their first twelve characters |
| SyncOrders.NewRootsAreOrdered | internal/controlplane/cas_reconcile.go:106-150 | a pair of one pool that differs and has room is ordered whenever every listed job between the two was filed for other roots |
| SyncOrders.RoomIsMeasured | internal/controlplane/cas_reconcile.go:127-129 | the room asked of the target is the size of all objects of the source under the prefixes in which the stores differ |
| CasReconcile.Reconcile | internal/controlplane/cas_reconcile.go:56-156 | exactly the due orders of all pools, each once, given the jobs that the listing shows |
| SyncOrders.OrderRound | internal/controlplane/cas_reconcile.go:56-156 | a round in terms of agents, inventories and jobs: exactly the pairs of one pool that are allowed, seen, keyed and readable, that differ and have room, and for which none of the hundred newest jobs stands |
| CasTransfer.Synchronise | internal/cassync/cassync.go:28-188 | packing followed by extraction, between damaged stores too: nothing new if a packed object is damaged or the manifest too long, everything if the target's copies are intact, otherwise some of it |
| CasTransfer.RunExplained | internal/cassync/cassync.go:101-188 | in every run of a plan, an object that is new on an agent has an intact copy at the start and an order that asks for it |
| SyncFacts.NewIsExplained | internal/cassync/cassync.go:28-188 | an object new on an agent was asked for by an order to it, by prefix and rank, and some agent had it undamaged at the start |
| CasTransfer.ParcelBounded | internal/cassync/cassync.go:28-97 | however a run went, what a source packs is bounded by what the plan may have brought it |
| CasTransfer.RunExtends | internal/cassync/cassync.go:101-188 | in every run of transfers no stored object changes or disappears, damaged or not, and every new one is true to its name |
| CasConvergence.CoveredSettles | internal/controlplane/cas_reconcile.go:106-152 | once the transfers of a roomy covering plan have run, in any order, every digest a source held intact is on all of its desired agents with the same bytes, whatever else is damaged |
| CasConvergence.CoverageIsExact | internal/controlplane/cas_reconcile.go:106-152 | a plan that settles the pool under every order of execution covers every missing copy with an order that works and finds no damaged copy in its place; if no working order can outgrow the manifest limit, this is exact |
| CasConvergence.RoundSettlesIff | internal/controlplane/cas_reconcile.go:106-152 | from fresh inventories of stores damaged or not, one round settles a pool under every order only if each missing copy has a holder held back by nothing: capacity, an earlier job, damage, or the size of what would be packed; and exactly then if no working order can outgrow the limit |
| CasConvergence.SoundRoundSettlesIff | internal/controlplane/cas_reconcile.go:106-152 | in undamaged fleets of at most 79,000 different objects, one round settles a pool under every order if and only if each missing copy has a holder held back neither by capacity nor by an earlier job |
| CrowdedArchive.HexStockIsLawful | internal/cassync/cassync.go:230-240 | small objects and a digest as the next rows assume them exist |
| CrowdedArchive.NeverInstalls | internal/cassync/cassync.go:124 | an archive of more than 94,253 objects of 32 bytes, packed without an error, installs nowhere |
| CrowdedArchive.CrowdedTransferFails | internal/cassync/cassync.go:124 | the transfer of as many leaves its target empty |
| CrowdedArchive.CoverageIsNotEnough | internal/controlplane/cas_reconcile.go:106-152 | three orders that all work and cover what is missing, and an order of execution in which one of them has outgrown the limit |
| DamagedArchive.DamagedSourceSendsNothing | internal/cassync/cassync.go:64-71 | an intact object is not sent because another one is damaged |
| DamagedArchive.DamagedTargetTakesNothing | internal/cassync/cassync.go:158-174 | a run in which a damaged copy on the target keeps it from taking an intact object |
| StaleSuppression.WhileAllAreThere | internal/controlplane/cas_reconcile.go:106-152 | a settled pool in which a transfer is due that sends nothing |
| StaleSuppression.AfterOneLeft | internal/controlplane/cas_reconcile.go:130-138 | after the holder of the desired copy has left, that transfer is due no more, nothing is queued, and the pool is not settled |
| StaleSuppression.Happens | internal/cassync/cassync.go:190-214 | under a concrete hash any three agents can be cast in these parts |
| Repair.Schedule | internal/controlplane/repair_distributed.go:145-240 | fails for shortage exactly when fewer than the data-shard number of indices have an online holder; otherwise picks exactly that many, the lowest, each backed by an online holder and on the target or shipped to it |
| RepairFacts.ScheduleRepair | internal/controlplane/repair_distributed.go:145-240 | scheduling in terms of agents and shard rows: who answers, the lowest offered indices with what their first row says, and a shipment for exactly those that another agent holds, in a shortage too |
| ObjectRepair.Node.RepairObject | internal/controlplane/repair_distributed.go:36-141 | the object file is overwritten with the reconstruction or, on any error, nothing changes |
| RepairFacts.RepairNode | internal/controlplane/repair_distributed.go:36-141 | a repair touches the file of the object's digest alone, and only with content of that digest and length, when shard files of enough indices are there with their digests |
| ObjectRepair.BlocksRecovered | internal/controlplane/repair_distributed.go:71-76 | the block count recomputed from shard sizes is the one of the encoding |
| ObjectRepair.RepairRestores | internal/controlplane/repair_distributed.go:36-141 | the repair writes the original bytes if and only if enough of the requested shards are intact on the node and the damaged file exists |
| ObjectRepair.NeverCreated | internal/controlplane/repair_distributed.go:114-141 | with all requested shards on the node, a repair still fails if the object's file is gone |
| MissingObject.MissingFileNotRestored | internal/controlplane/repair_distributed.go:114-141 | a concrete object, code and payload for which it does |
| ObjectRepair.ScheduledRepair | internal/controlplane/repair_distributed.go:145-240 | from schedule to object: the scheduled payload has just enough shards, and the repair succeeds if and only if all of them have arrived and the file exists |
| UploadServer.Server.Chunk | internal/controlplane/agent_server.go:605-691 | the new part file and record in every branch, for a given write position |
| ExchangeFacts.ChunkIff | internal/controlplane/agent_server.go:605-691 | a chunk is granted if and only if it starts where the file ends, arrives whole, carries its digest and stays within both limits; what it leaves |
| UploadServer.Server.Finalize | internal/controlplane/agent_server.go:698-754 | a repeated finalize is answered from the record; otherwise length and hash must match before the part becomes the spool |
| ExchangeFacts.FinalizeIff | internal/controlplane/agent_server.go:698-754 | a finalize is granted if and only if the part file, or the finished transfer, has the length and the digest; what it leaves |
| UploadServer.RunKeepsInv | internal/controlplane/agent_server.go:605-754 | whatever requests arrive, a transfer recorded as ready has a spool of the recorded length and hash |
| UploadServer.FinalizeIsTrue | internal/controlplane/agent_server.go:698-754 | a granted finalize means that the spool is the source |
| ExchangeFacts.FinishedIsTrue | internal/controlplane/agent_server.go:605-754 | whatever requests arrived since a transfer began, a finished one has a spool file of the recorded length and digest |
| UploadServer.AppendOnly | internal/controlplane/agent_server.go:636-670 | if chunks land at their offset, the part changes only by accepted chunks at its end; rejected ones change nothing |
| UploadServer.NeverOutgrows | internal/controlplane/agent_server.go:636-657 | if chunks land at the start, as the handler writes them, the part never outgrows a chunk |
| UploadServer.RejectedChunkHarmlessIff | internal/controlplane/agent_server.go:657-672 | if chunks land at the start, a rejected chunk leaves the part as it was if and only if it was turned away for its offset or carried the bytes that the part begins with |
| UploadServer.RejectedChunkDamages | internal/controlplane/agent_server.go:657-672 | a run of two chunks, the second cut short and rejected, that loses a received byte |
| UploadClient.SendChunk | internal/controlplane/remote_store.go:216-266 | the attempts at one chunk: progress is kept, and every successful round moves the offset forward |
| UploadClient.UploadFile | internal/controlplane/remote_store.go:186-287 | client success means the ready spool is the source, for every network and either write position; with offset writes the loop ends within one round per byte and succeeds over a reliable network; with writes at the start no source longer than a chunk can succeed |
| UploadClient.UploadAttempts | internal/controlplane/worker.go:307-337 | the attempts of a job, each with its own ciphertext: success means the ready spool is the ciphertext of one of them; with offset writes, none succeeds over a part file that is a prefix of none |
| UploadClient.ForeignRefused | internal/controlplane/agent_server.go:698-754 | a finalize over such a part file is refused and changes nothing |
| UploadClient.TransferFromEmpty | internal/controlplane/worker.go:287-337 | from an empty server and over a network that loses nothing, an attempt succeeds alone and fails after the accepted first chunk of another whose first byte differs |
| UploadClient.ChunkFollows | internal/controlplane/agent_server.go:636-690 | the client is never ahead of the server and the part stays a prefix of the source |
| Download.Partial.Download | internal/controlplane/remote_store.go:328-418 | a nil return means the expected length and digest under any network behaviour |
| ExchangeFacts.AttemptIs | internal/controlplane/remote_store.go:328-418 | one attempt: when nothing is asked for, what is thrown away, where the request resumes, and when the result is accepted |
| ExchangeFacts.AttemptsAre | internal/controlplane/remote_store.go:328-350 | attempts follow one another, each on the file before, until one succeeds or all are used |
| Download.NilMeansGood | internal/controlplane/remote_store.go:328-418 | the same for every number of attempts |
| Download.TwoAttemptsHeal | internal/controlplane/remote_store.go:340-417 | with an honest server and a known length, any initial partial file is replaced by the source within two attempts, whether ranges are honoured or ignored |
| Download.UnknownLengthHealsIff | internal/controlplane/remote_store.go:351-371 | for a caller that gives no length, as no worker does, the download succeeds if and only if the partial file is empty or a proper prefix, or the first answer is the whole source |
| Frames.Encrypt | internal/replication/crypto.go:69-135 | header, one frame per non-empty read, terminator; the frame limit is never hit |
| ExchangeFacts.EncryptPiece | internal/replication/crypto.go:69-135 | the stream of one piece byte for byte: magic text, public key, length, nonce, what is sealed under the derived key, terminator |
| Frames.Decrypt | internal/replication/crypto.go:137-202 | the frame loop equals decoding frame by frame, with every error case |
| ExchangeFacts.HeaderIsRead | internal/replication/crypto.go:137-174 | what must stand before the first frame, and the key that the frames are opened with |
| ExchangeFacts.ReadingEnds | internal/replication/crypto.go:175-202 | how reading frames ends, length by length |
| Frames.FrameLength | internal/replication/crypto.go:102-131 | no data frame has the length of the terminator or more than the maximum |
| Frames.RoundTrip | internal/replication/crypto.go:69-202 | however the source splits its reads, decrypting returns its bytes |
| Frames.PrefixRejected | internal/replication/crypto.go:137-202 | every strict prefix of an encrypted stream is rejected as cut short |
| Frames.OpenSuiteIsLawful | internal/replication/crypto.go:85-96 | the laws assumed of key agreement and sealing can be met together |
| Ledger.Scan | internal/audit/ledger.go:144-192 | accepts exactly the verified files and returns count and head |
| Ledger.SoundIffChained | internal/audit/ledger.go:144-192 | verified means: every line legible and the records one chain, numbered from 1, each naming the stored hash before it |
| LedgerText.VerifiesIff | internal/audit/ledger.go:144-192 | the same in terms of line lengths, numbers and stored hashes |
| Ledger.Ledger.Append | internal/audit/ledger.go:81-121 | refuses to extend an invalid ledger or to write an incomplete record; otherwise appends the next record of the chain |
| JsonText.ReloadIff | internal/audit/ledger.go:144-203 | a value reads back as it was written if and only if its texts are valid UTF-8, its numbers survive floating point, and its objects have their keys in order, each once |
| Float64.SmallSurvives | internal/audit/ledger.go:194-203 | whole numbers within the mantissa read back as they were |
| Float64.FirstLost | internal/audit/ledger.go:194-203 | the first one beyond it does not |
| Ledger.AppendVerifiesIff | internal/audit/ledger.go:81-121 | after a successful append the ledger verifies if and only if the request's texts and fields survive JSON and the line they take fits the scanner |
| LedgerText.LineSizeIs | internal/audit/ledger.go:16-30 | the length that decides this is that of the JSON line as it is written, escapes and encoding included |
| LedgerText.AppendRecord | internal/audit/ledger.go:81-121 | an append to a ledger object: when it is refused, the line it adds, and when the file still verifies |
| Ledger.InvalidTextSpoils | internal/audit/ledger.go:81-121 | an error text that is not valid UTF-8 spoils the ledger it is appended to |
| Ledger.WideNumberSpoils | internal/audit/ledger.go:81-121 | so does a number beyond the mantissa |
| Ledger.UnsortedRecordSpoils | internal/audit/ledger.go:81-121 | so does a record value with unsorted members |
| Ledger.LongTextSpoils | internal/audit/ledger.go:144-192 | so does a text as long as the scanner's buffer |
| Ledger.BuiltVerifiesIff | internal/audit/ledger.go:81-192 | every ledger built by appending from nothing verifies if and only if each request appended survives being written where it stands |
| Checkpoints.VerifyCheckpoint | internal/audit/checkpoint.go:72-103 | accepts exactly a verified ledger whose head the signed claim names |
| Checkpoints.CheckpointBinds | internal/audit/checkpoint.go:87-93 | two ledgers that verify against one checkpoint are identical record for record, up to letter case of the last stored hash |
| Checkpoints.AppendedCheckpointIff | internal/audit/ledger.go:61-79 | the checkpoint written with an append verifies afterwards if and only if the request survives being written |
| Checkpoints.GrowthLeavesCheckpoint | internal/audit/checkpoint.go:87-93 | a ledger that has grown past a checkpoint no longer matches it |
| RecentRecords.Recent | internal/audit/recent.go:14-62 | exactly the last min(limit, 4096) matching records, newest first, and an error if any record fails verification |
| RecentRecords.MatchingKeepsOrder | internal/audit/recent.go:23-45 | the matching records are those of the action asked for, or all without one, each as often as written and in that order |
| RecentRecords.RecentOfAll | internal/audit/recent.go:14-62 | without an action, the last records of a verified ledger, newest first |
| RecentRecords.PushKeeps | internal/audit/recent.go:29-41 | the ring always holds the last records, record k in slot k modulo the limit |

## Left out

- GitHub and GitLab clients, git, docker, restic, rclone and aws processes, PKI, OIDC, KMS, notifications, HTML, metrics and the console job manager: plumbing around the modelled core.
- Configuration parsing: its defaults (timeouts, chunk sizes, retries) enter as normalised parameters.
- Operating-system errors, fsync and crash atomicity, file races: only the lost requests, lost responses, cut bodies and rejections of the transfer protocol are steps.
- The one-shot PUT upload and relay GET: single atomic steps beside the resumable protocol.
- The transfer identity, job authorisation and key-currency checks of the handlers: a refused exchange is a fate of the network; malformed headers are not modelled, and the requests are well formed.
- Cleanup of expired transfers and of finished spools: not part of the upload results, which speak of the moment of success.
- The protect jobs that `ErasureReconciler.Reconcile` queues on an interval: a cooldown test beside the shard movement.
- CAS.Verify, Compact and Stats, retryDelay, scrub counters, tiering and SMART scoring: single loops or branches.
- Failure order in JSON decoding of labels: a label value is text, a number or something else.
- A manifest entry whose digest is shorter than two characters makes the original panic; the model fails the extraction.
- Grouping of shard rows by index before a repair chooses: rows are searched in their order, which picks the same rows.
- JobStoreClass.Store.Lease: the query's limit of candidates and its ordering by creation time are a choice among equals, not a total order.
- UploadClient.UploadFile: cancellation and pacing are not modelled, and the network is a fate per exchange.
- Frames.Encrypt: a source whose read fails, which ends in an error without a stream.
- Erasure.Reconstruct: the temporary output file, which exists only until it is renamed or removed.
- ShardHandover.RunKeepsInv: releases of references and unowned adjustments, which no worker performs, are not steps, and neither is the loss of files by other means than collection.
- CasSync.Archive: objects whose file name has upper-case letters, which the source would pack; nothing in the repository writes such names.
- CasConvergence.CoverageIsExact: which plans settle a pool although an order of them may outgrow the limit of manifests; that depends on the order of execution, and `CrowdedArchive.CoverageIsNotEnough` shows that coverage does not decide it.
- CasTransfer.Synchronise: a transfer is one step; its repetition by job retries, which meets the same source and target or larger ones, is another.
- ShardHandover.InstallShard: the download and decryption before it are `Download` and `Frames`; here an archive arrives as it may.
- ShardReconcile.PlanTarget: the lease and the job of a planned transfer are the order step of `ShardHandover`; a listed job that is answered instead of a new one is `JobStoreClass.Store.Enqueue`.
- Inventory.BuildStore: what it returns when two file names agree once trimmed and in lower case.
- JsonText.ReloadIff: numbers with a fraction; whole numbers are what the program's own callers put into ledger fields.
