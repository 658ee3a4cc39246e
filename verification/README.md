# Sentinel: verified model

This project models, in Dafny, the parts of the platform whose correctness depends on more than
one function, and proves what they keep. `dafny verify dfyconfig.toml` checks all of it.

**Outbox, relays and audit ledger** (`Events`, `Outbox`, `Leases`, `OutboxWorker`, `Ledger`,
`AuditRepository`, `Tamper`, `Delivery`). `Outbox` is the relay protocol as a state machine: any
number of workers claim, publish and settle records while a clock advances and workers crash. A
worker keeps the attempt count that it read when it claimed, and settling names only the record,
as in the code. `Leases` adds the one assumption the protocol needs, that no worker acts after
its own lease has lapsed, and shows what happens without it. `OutboxWorker` is the table and the
relay loop as they are written, updated in place. `Ledger` is the ingest transaction cut into its
five database round trips and interleaved under read-committed visibility; row ids and
transaction start times are arbitrary, the hash is a parameter `h` that is assumed injective only
where a lemma says so, and two tenants may share an advisory lock. `AuditRepository` is `ingest`
run without interruption. `Delivery` joins relays and ledger by a link that loses, repeats and
delays requests and replies.

**Dependency graph** (`Text`, `ArmReferences`, `Relationships`, `RelationshipStore`,
`Reachability`, `Traversal`). The extractor fills its dictionary in place and is proved equal to a
path-based definition of what a JSON document references. `Relationships` gives the edge rebuild as
a function of the table, `RelationshipStore` runs it in place and proves the table equal to its
specification. `Reachability` defines walks, balls and spheres without reference to the search;
`Traversal` is the search.

**Inventory** (`Paging`, `Inventory`, `Pipeline`, `Feed`, `Overlap`). The upsert and the paged
listing, and one run of the worker against a relationship service that can fail at any call. `Feed`
has any number of such workers whose store batches, projections and rebuilds are served one at a
time. `Overlap` has the same requests as transactions that overlap under read-committed isolation:
each plans its writes from what is committed when it reads, and commits only if its inserts break
no unique key by then.

**Identity** (`Accounts`, `Identity`, `IdentityRuns`, `IdentityStore`). Two kinds of request,
logins and bearer requests, one after another from empty tables. A user's permissions are read
after the flush that ends a login.

Where the code falls short of what one would expect of it, the code is modelled as it is, with a
witness and an exact condition:

* settling is not fenced by the lease, so a lapsed worker can reopen a published record
  (`Leases.FinalityNeedsLeases`, `Leases.LapsedLeaseUndoesPublication`,
  `Leases.ReclaimableExactlyWhenLapsed`);
* `attempts <= 20` can fail when workers outlive their leases, or crash in a twentieth or later
  attempt (`Leases.SlowWorkersExceedAnyBound`, `Leases.CrashesExceedAnyBound`); it holds exactly as
  `Leases.TwentyAttemptsWithoutLeasesExactly` says, and under the lease assumption exactly as
  `Leases.TwentyAttemptsExactly` says;
* a predecessor is chosen by transaction start time, so overlapping ingests can fork the hash chain
  (`Tamper.OverlapForksChain`, `Ledger.LinearExactly`), as can equal start times without overlap
  (`Tamper.TieBreaksLine`, `Ledger.SerialIngestIsLinear`), and that time is outside the hash
  (`Tamper.IngestTimeIsNotCovered`);
* an edge rebuild looks only at the rows that were there before it, which would break the edge
  table's unique key if two candidates resolved to one new edge; the extractor's dictionary is what
  prevents it (`Relationships.UniqueExactlyWhenNoClash`, `Relationships.OnePerTargetNeverClashes`);
* `truncated` can be set on a complete answer (`Traversal.FlaggedAnswerCanBeComplete`); it is set
  with no node missing exactly as `Traversal.FlaggedWithoutMissingNodesExactly` says, and a node
  limit of one returns two nodes (`Traversal.LimitOfOneVisitsTwo`, `Traversal.LimitKeptExactly`);
* projections are not ordered, so a late one overwrites a newer one (`Feed.StaleProjectionWins`,
  `Feed.UpToDateExactly`), and with ids that the inventory would not send, even which node exists
  depends on the order of arrival (`RelationshipStore.RefusalDependsOnOrder`);
* a source whose type stops being supported keeps its active edges
  (`RelationshipStore.StaleEdgeOfUnsupportedSource`, `RelationshipStore.StaleEdgeWitness`), and
  agrees with its properties exactly as `RelationshipStore.UnsupportedAgreesExactly` says;
* requests about the same resource that overlap can be refused by a unique key
  (`Overlap.FirstProjectionsCanOverlap`, `Overlap.BatchesClash`, `Overlap.RebuildsClash`), and only
  such requests (`Overlap.RefusedOnlyWhenOverlapped`).

The migrated schema makes (tenant, event, time of occurrence) unique in the ledger
(`database/schema.sql:482`), the ORM declares (tenant, event)
(`apps/audit-service/src/sentinel_audit/models.py:14`). The model relies on the weaker, migrated
key; that an event id still appears once is then a theorem about the whole system.

## Model

| member | source | states |
|---|---|---|
| Outbox.RetryDelayIsNeverCapped | packages/python/sentinel_common/outbox_worker.py:38-40 | The delay after attempt k is 2^min(k, 8): between 2 and 256 seconds, doubling up to the eighth attempt and constant from there, so the cap of 300 never applies |
| Outbox.TotalDelayClosedForm | packages/python/sentinel_common/outbox_worker.py:37-40 | The back-off after k >= 8 attempts adds up to 510 + 256(k - 8) seconds |
| Outbox.EveryRunIsSound | packages/python/sentinel_common/outbox_worker.py:21-41 | In every run, with crashes, any number of workers and no assumption on leases: an unsettled record becomes eligible within 300 seconds of now, a pending one within 256, a dead one has at least 20 attempts, only records that were claimed leave pending, and a worker's remembered count never exceeds the row's |
| Outbox.EnqueueExactly | packages/python/sentinel_common/audit.py:66-74 | An enqueue adds one record with no attempts that can be claimed at once, and touches no other |
| Outbox.ClaimExactly | packages/python/sentinel_common/audit.py:92-95 | A claim counts one attempt, makes the record eligible again after 300 seconds and not before, and touches no other |
| Outbox.FailureExactly | packages/python/sentinel_common/outbox_worker.py:36-41 | A failed publication after the k-th attempt that its worker counted makes the record eligible after 2^min(k, 8) seconds and not before if k < 20, and dead otherwise; the error is kept up to 2000 characters |
| Outbox.SuccessExactly | packages/python/sentinel_common/outbox_worker.py:30-33 | A successful one publishes the record, dated now and without error, never to be eligible again |
| Outbox.CrashExactly | packages/python/sentinel_common/outbox_worker.py:21-29 | A crash changes no record, and no other worker |
| Outbox.AttemptsCountClaims | packages/python/sentinel_common/audit.py:92-95 | In every reachable state a record's attempts equal the number of claims made of it so far |
| Outbox.NothingIsLost | packages/python/sentinel_common/audit.py:66-74 | A record once enqueued is there in every later state with its event and creation time unchanged |
| Outbox.ClaimsDependOnLocks | packages/python/sentinel_common/audit.py:79-91 | An idle worker's claim of a record is a step of the protocol if and only if the query would take that record for some set of rows locked by other transactions: it is an oldest one among the eligible ones left |
| Leases.LeasesAreExclusive | packages/python/sentinel_common/audit.py:77-96 | If no worker has acted past its lease, no two live workers hold the same record, and each holder made the record's latest claim |
| Leases.ReclaimableExactlyWhenLapsed | packages/python/sentinel_common/audit.py:82-86 | A held record can be claimed by another worker if and only if its holder's 300 seconds are over |
| Leases.SettledIsFinal | packages/python/sentinel_common/outbox_worker.py:28-41 | Under the lease assumption a record that is published or dead at some point of a run is unchanged ever after |
| Leases.LapsedLeaseUndoesPublication | packages/python/sentinel_common/outbox_worker.py:30-41 | From any state in which one lease has lapsed, a claim of that record, its publication and the late worker's failure take it out of published again |
| Leases.FinalityNeedsLeases | packages/python/sentinel_common/outbox_worker.py:30-41 | A concrete run of six steps in which a published record becomes pending |
| Leases.FirstClaimKnown | packages/python/sentinel_common/outbox_worker.py:37-40 | How long each record has waited since its first claim, by status and attempts: the back-offs already served, and the lease while in publication |
| Leases.FirstClaimIsFirst | packages/python/sentinel_common/audit.py:80-95 | The time that these waits are counted from is that of the run's first claim of the record |
| Leases.DeadNoSooner | packages/python/sentinel_common/outbox_worker.py:37-40 | Under the lease assumption, crashes allowed, a dead record has at least 20 attempts and died no sooner than 3326 seconds after its first claim |
| Leases.BudgetHolds | packages/python/sentinel_common/outbox_worker.py:22-41 | Under the lease assumption a record with at least 20 attempts has exactly 20 plus its late crashes, less one if it is abandoned in publication; a pending one has fewer than 20 |
| Leases.TwentyAttemptsExactly | packages/python/sentinel_common/outbox_worker.py:37 | Under the lease assumption attempts <= 20 if and only if no worker has crashed during a twentieth or later attempt, save for one such crash that left the record in publication |
| Leases.CrashesExceedAnyBound | packages/python/sentinel_common/audit.py:80-95 | For every n there is a run within leases in which a record reaches n attempts and can be claimed again |
| Leases.AttemptsBeyondTwenty | packages/python/sentinel_common/audit.py:80-95 | In every run, leases respected or not, the attempts beyond the twentieth are exactly the claims made of the record when it already had twenty or more |
| Leases.TwentyAttemptsWithoutLeasesExactly | packages/python/sentinel_common/audit.py:80-95 | In every run attempts <= 20 if and only if the record was never claimed again after its twentieth attempt |
| Leases.SlowWorkersExceedAnyBound | packages/python/sentinel_common/audit.py:80-95 | For every n there is a run without any crash, in which each worker outlives its lease, that takes a record to n attempts and leaves it eligible |
| Leases.ClaimsAreAttempts | packages/python/sentinel_common/audit.py:92-95 | Over any run the claims made in total equal the sum of attempts in the table |
| Leases.AtMostTwentyClaimsEach | packages/python/sentinel_common/outbox_worker.py:21-41 | Under the lease assumption, with any number of workers and no crash in a twentieth or later attempt, n records take at most 20n claims |
| Leases.UnsettledCanMove | packages/python/sentinel_common/audit.py:78-91 | With no assumption on leases, any unsettled record is eligible after at most 300 seconds, and then an idle worker finds an oldest eligible record to claim: this one or one no younger |
| Leases.RelaysDrain | packages/python/sentinel_common/outbox_worker.py:21-41 | Any number of relays drain the outbox: in a crash-free run within leases that has come to rest, every one of the n records is settled, or fewer than 20n claims were made and within 300 seconds there is an oldest eligible record to claim |
| OutboxWorker.OutboxTable.EnqueueAudit | packages/python/sentinel_common/audit.py:66-74 | Adds one pending record, never claimed, available at once, and changes no other |
| OutboxWorker.OutboxTable.ClaimOutbox | packages/python/sentinel_common/audit.py:77-96 | Takes a record no younger than any other that is eligible and not locked elsewhere, and leaves the table alone exactly when there is none; the record is leased for 300 seconds with one attempt more |
| OutboxWorker.OutboxTable.MarkPublished | packages/python/sentinel_common/outbox_worker.py:30-33 | Changes the named record alone, to the state the protocol's successful settlement leaves |
| OutboxWorker.OutboxTable.MarkFailed | packages/python/sentinel_common/outbox_worker.py:36-41 | Changes the named record alone, to the state that a failed settlement of the protocol leaves, which `Outbox.FailureExactly` describes |
| OutboxWorker.AttemptSpendsBudget | packages/python/sentinel_common/outbox_worker.py:21-41 | Whatever the outcome, one claim and settlement lowers the sum of remaining attempts and raises the sum of attempts by one |
| OutboxWorker.Turn | packages/python/sentinel_common/outbox_worker.py:22-41 | One turn of the loop settles one oldest eligible record, or waits a second when none is eligible |
| OutboxWorker.TurnIsThreeSteps | packages/python/sentinel_common/outbox_worker.py:22-41 | A turn of the loop that finds a record is a claim, a wait and a settlement of the relay protocol, with the same table as result |
| OutboxWorker.Run | packages/python/sentinel_common/outbox_worker.py:21-41 | Without crashes and new records the loop comes to a state in which all n records are published or dead, after at most 20n claims, with every event kept and settled records untouched; when every publication succeeds each open record is published with one claim |
| Ledger.TailIsLatest | apps/audit-service/src/sentinel_audit/repository.py:30-35 | The predecessor query returns the tenant's record that is greatest by (ingested_at, id), and nothing exactly when the tenant has none |
| Ledger.EveryRunIsSound | apps/audit-service/src/sentinel_audit/repository.py:17-85 | In every interleaving of ingest transactions each record's hash covers its content, its link is the hash of the tenant's greatest record among those committed before it, the unique key holds, and what was read under the lock is still current at commit |
| Ledger.RowsWereBegun | apps/audit-service/src/sentinel_audit/models.py:24-25 | Every record has the content that one transaction of the run was begun with, and its start time as ingest time |
| Ledger.HashesNameRows | apps/audit-service/src/sentinel_audit/repository.py:52-54 | With an injective hash, no two records have the same record hash |
| Ledger.LinksNameEarlierRows | apps/audit-service/src/sentinel_audit/repository.py:30-36 | A record has no predecessor exactly when it is its tenant's first; otherwise its link names exactly one record, of the same tenant and committed earlier |
| Ledger.ExactlyOneRoot | apps/audit-service/src/sentinel_audit/repository.py:36 | Each tenant with records has exactly one without a predecessor |
| Ledger.LinksReachTheRoot | apps/audit-service/src/sentinel_audit/repository.py:30-36 | From any record, following links visits strictly earlier records of the tenant and ends at its root |
| Ledger.LinearExactly | apps/audit-service/src/sentinel_audit/repository.py:30-36 | A tenant's records form one chain in commit order if and only if each, except perhaps the last, was later by (ingested_at, id) than all those committed before it |
| Ledger.SerialIngestIsLinear | apps/audit-service/src/sentinel_audit/models.py:24-25 | When a tenant's ingests do not overlap, its log is one chain in commit order if and only if records with equal start times, the last record excepted, were committed in the order of their ids; so always when start times differ |
| AuditRepository.Repository.Ingest | apps/audit-service/src/sentinel_audit/repository.py:17-85 | Idempotent by event id; otherwise appends one record, linked to the tenant's greatest and hashed over its own content, keeping the whole ledger well linked |
| AuditRepository.IngestIsFiveSteps | apps/audit-service/src/sentinel_audit/repository.py:17-85 | The uninterrupted operation is one of the interleavings of the transaction machine, with the same resulting log |
| Tamper.LinearLedgerVerifies | apps/audit-service/src/sentinel_audit/repository.py:36-54 | Re-verifying a tenant's records of a linear ledger in commit order succeeds |
| Tamper.LastHashPinsChain | apps/audit-service/src/sentinel_audit/repository.py:36-54 | Two chains that verify and have the same last hash are equal in length and, record by record, in all hashed content and in hashes |
| Tamper.AlterationVerifiesExactly | apps/audit-service/src/sentinel_audit/repository.py:37-54 | Replacing one record by one with other hashed content still verifies if and only if it is the last one, its link is unchanged and its own hash was recomputed |
| Tamper.AlteredFieldIsDetected | apps/audit-service/src/sentinel_audit/repository.py:37-54 | Altering any hashed fields of any one record, its link to the previous hash included, the rest unchanged, makes verification fail |
| Tamper.IngestTimeIsNotCovered | apps/audit-service/src/sentinel_audit/repository.py:37-51 | Altering a record's id or ingest time never changes whether the chain verifies |
| Tamper.HashPinsLineage | apps/audit-service/src/sentinel_audit/repository.py:36-54 | In any two reachable ledgers, forked or not, records with equal hashes have equal histories down to the root |
| Tamper.LineageIsLinked | apps/audit-service/src/sentinel_audit/repository.py:36-54 | A record's history begins at a document without predecessor, and each further one names the hash of the one before |
| Tamper.OverlapForksChain | apps/audit-service/src/sentinel_audit/models.py:24-25 | For any three events of a tenant a run in which two overlapping ingests take the lock against their start order, after which two records name one predecessor and the log is not a line |
| Tamper.TieBreaksLine | apps/audit-service/src/sentinel_audit/repository.py:30-35 | A run without overlap in which two ingests start at the same instant, the later one gets the smaller id, and the log is not a line |
| Delivery.RelayProjection | packages/python/sentinel_common/outbox_worker.py:21-41 | The relay's part of every run of the joined system is a run of the relay protocol, so every result about the protocol holds in the system |
| Delivery.LedgerProjection | apps/audit-service/src/sentinel_audit/repository.py:17-85 | The ledger's part of every run of the joined system is a run of the ingest machine |
| Delivery.ReplyIsUsable | apps/audit-service/src/sentinel_audit/repository.py:18-25 | A transaction answers its request exactly when it ends well, whether it found the event or stored it, and no reply is forgotten |
| Delivery.AckedWereSent | packages/python/sentinel_common/audit.py:29-35 | A reply can only be to a request that the claim of that very record and attempt has sent |
| Delivery.HealthyLinkPublishes | packages/python/sentinel_common/outbox_worker.py:28-33 | From every reachable state a relay that holds a record can publish it over a working link: it sends, is served and answered, and settles the record as published; the log gains the event, or nothing when an earlier attempt had stored it |
| Delivery.EffectivelyOnce | packages/python/sentinel_common/outbox_worker.py:28-33 | In every interleaving of enqueues, relays, crashes, lost replies and redeliveries each tenant's log holds an event id at most once and only enqueued events, and the event of every published record is in the log |
| Delivery.PublishedStaysPublished | packages/python/sentinel_common/outbox_worker.py:30-33 | Under the lease assumption a published record of the joined system is unchanged in every continuation |
| Delivery.SystemDrains | packages/python/sentinel_common/outbox_worker.py:21-41 | In a crash-free run of the joined system within leases whose relays have come to rest, each record is dead or its event is in the log, where no event id is twice; or claims are left and a relay can go on within 300 seconds |
| ArmReferences.ArmReferenceExtractor.Extract | apps/relationship-service/src/sentinel_relationship/extractors.py:32-60 | The walk that fills one shared dictionary in place returns the candidates the path-based definition gives, in the dictionary's order |
| ArmReferences.ArmReferenceExtractor.Visit | apps/relationship-service/src/sentinel_relationship/extractors.py:35-57 | A visit adds to the dictionary what is found below the value, in document order, with depth and list bounds |
| ArmReferences.ReferencesAreHit | apps/relationship-service/src/sentinel_relationship/extractors.py:35-57 | Completeness: each qualifying string reached by at most 12 selectors with list indices below 1000 is found, under the rendering of its path |
| ArmReferences.HitsAreReferences | apps/relationship-service/src/sentinel_relationship/extractors.py:35-57 | Soundness: each find comes from such a path, and its recorded path is that path's rendering |
| ArmReferences.DictionaryOfHits | apps/relationship-service/src/sentinel_relationship/extractors.py:51-60 | One candidate per target, each target found has one, and each candidate is from the last find of its target |
| ArmReferences.ExtractedExactly | apps/relationship-service/src/sentinel_relationship/extractors.py:32-60 | A target is among the candidates if and only if a bounded path leads to a string that normalises to it |
| ArmReferences.EvidenceLeadsToTarget | apps/relationship-service/src/sentinel_relationship/extractors.py:56 | Each candidate's evidence path is the rendering of a path that leads to a string normalising to its target |
| ArmReferences.CandidatesAreHardReferences | apps/relationship-service/src/sentinel_relationship/extractors.py:51-57 | Every candidate is a hard reference of confidence 1 |
| ArmReferences.SupportsExactly | apps/relationship-service/src/sentinel_relationship/extractors.py:29-30 | Supported types are those that begin with "microsoft." |
| ArmReferences.QualifiesExactly | apps/relationship-service/src/sentinel_relationship/extractors.py:46-50 | A string qualifies exactly when it begins with "/subscriptions/", has "/providers/" in it and does not end as a diagnostic setting |
| ArmReferences.RenderStepExactly | apps/relationship-service/src/sentinel_relationship/extractors.py:40-43 | A key is written after a dot and an index in brackets, so that selectors that are written alike are the same |
| Text.LowerEqualExactly | apps/relationship-service/src/sentinel_relationship/extractors.py:45 | Two strings are the same in lower case exactly when they have equal length and differ in ASCII case only |
| Text.LowerMeans | apps/relationship-service/src/sentinel_relationship/extractors.py:45 | Lower-casing keeps the length, leaves no capital letter, changes nothing but case, and does no more when repeated |
| Text.StripMeans | apps/relationship-service/src/sentinel_relationship/extractors.py:45 | Stripping takes away white space at both ends, all of it and nothing else |
| Text.IsSpaceExactly | apps/relationship-service/src/sentinel_relationship/extractors.py:45 | White space is the blank and the control characters 9 to 13 and 28 to 31 |
| Relationships.RebuiltActivates | apps/relationship-service/src/sentinel_relationship/repository.py:61-110 | After a rebuild the source's active edges are exactly those its candidates resolve to, self references left out, and every other source's active edges are unchanged |
| Relationships.RebuiltKeepsRows | apps/relationship-service/src/sentinel_relationship/repository.py:70-71 | No row is removed or renamed, and rows of other sources are not touched at all |
| Relationships.AddedRowHasCandidate | apps/relationship-service/src/sentinel_relationship/repository.py:91-105 | Each added row comes from a candidate whose edge was not stored before |
| Relationships.AddingCandidateHasRow | apps/relationship-service/src/sentinel_relationship/repository.py:91-105 | Each candidate whose edge was not stored before has an added row |
| Relationships.ActiveRowHasCandidate | apps/relationship-service/src/sentinel_relationship/repository.py:82-109 | After a rebuild each active row of the source is what one of the candidates calls for and carries its evidence; an added row carries its strength and confidence and the extractor's signature |
| Relationships.UniqueExactlyWhenNoClash | apps/relationship-service/src/sentinel_relationship/repository.py:61-105 | A rebuild keeps the edge table's unique key if and only if no two candidates resolve to the same edge that was not stored before |
| Relationships.OnePerTargetNeverClashes | apps/relationship-service/src/sentinel_relationship/models.py:26-27 | One candidate per target and unique normalised node ids rule such a clash out |
| Relationships.RestoredReferenceReusesRow | apps/relationship-service/src/sentinel_relationship/repository.py:82-109 | A reference dropped by one rebuild and found by a later one, whatever else the two find and however the nodes changed between them, has its old row back: inactive in between, then active with the new evidence, and the only row with its key |
| RelationshipStore.RebuildKeepsStore | apps/relationship-service/src/sentinel_relationship/repository.py:54-110 | A rebuild from extracted candidates keeps the unique keys and the existence of both ends of every edge |
| RelationshipStore.RefersByPath | apps/relationship-service/src/sentinel_relationship/extractors.py:45-51 | One node refers to another if and only if a bounded path in its properties leads to a spelling of the other's id |
| RelationshipStore.RefersBySpelling | apps/relationship-service/src/sentinel_relationship/extractors.py:35-51 | One node refers to another if and only if at most 12 steps into its properties, through the first 1000 elements of lists, stands an ARM id that is, white space at its ends apart, the other's id up to ASCII case |
| RelationshipStore.RebuildAgrees | apps/relationship-service/src/sentinel_relationship/service.py:25-29 | After rebuilding one source its active edges are exactly the nodes its properties refer to |
| RelationshipStore.ActiveEdgesAreEvidenced | apps/relationship-service/src/sentinel_relationship/repository.py:91-109 | After a rebuild the evidence of each active edge of the source is the path to a spelling of its target's id in the source's properties; a new edge is hard, certain and signed by the extractor |
| RelationshipStore.SecondRebuildAddsNothing | apps/relationship-service/src/sentinel_relationship/repository.py:82-105 | Rebuilding a source whose edges already agree adds no row |
| RelationshipStore.UnsupportedKeepsEdges | apps/relationship-service/src/sentinel_relationship/repository.py:70-71 | A source whose type stops being supported keeps exactly the active edges it had, through its own projection and any rebuild of everything |
| RelationshipStore.UnsupportedAgreesExactly | apps/relationship-service/src/sentinel_relationship/repository.py:70-71 | After any rebuild a source whose type is no longer supported agrees with its properties if and only if the edges it had before its last projection were already the ones its new properties call for |
| RelationshipStore.StaleEdgeOfUnsupportedSource | apps/relationship-service/src/sentinel_relationship/service.py:25-29 | Two projections of one source, the second unsupported and without references, leave an active edge that its properties do not call for and that rebuilding everything does not remove |
| RelationshipStore.StaleEdgeWitness | apps/relationship-service/src/sentinel_relationship/service.py:25-29 | Two such projections, for any text that holds an id: a source whose properties are an object with another resource's id, then the same source with an unsupported type and an empty object |
| RelationshipStore.RefusalDependsOnOrder | apps/relationship-service/src/sentinel_relationship/repository.py:27-51 | Of two resources sent with one ARM id the first to arrive is kept and the other refused, so without the inventory's ids the order of arrival would matter |
| RelationshipStore.Repository.UpsertNode | apps/relationship-service/src/sentinel_relationship/repository.py:16-52 | Inserts or updates one node, keeping the store's keys; refuses, changing nothing, exactly when another node has the ARM id |
| RelationshipStore.Repository.RebuildEdges | apps/relationship-service/src/sentinel_relationship/repository.py:54-110 | The in-place loops leave the table the specification gives, and return the number of rows added |
| RelationshipStore.Repository.ProjectAndExtract | apps/relationship-service/src/sentinel_relationship/service.py:14-30 | Upserts the node and makes a supported node's active edges agree with its properties, leaving every other source's active edges as they were |
| RelationshipStore.Repository.RebuildAll | apps/relationship-service/src/sentinel_relationship/service.py:32-43 | From any reachable edge table and in any order of nodes, all supported sources end with exactly the active edges their properties call for; no row is removed or renamed |
| Reachability.BallIsWalks | apps/relationship-service/src/sentinel_relationship/service.py:50-66 | A node is in the ball of radius k if and only if a walk of at most k edges in the query's direction joins the root to it |
| Reachability.SphereIsDistance | apps/relationship-service/src/sentinel_relationship/service.py:64-66 | A node is on the sphere of radius k if and only if its shortest walk from the root has exactly k edges |
| Traversal.EdgesForFrontier | apps/relationship-service/src/sentinel_relationship/repository.py:163-184 | Lists each active edge of the tenant that leaves, enters or touches the frontier, by direction, once |
| Traversal.FollowEdges | apps/relationship-service/src/sentinel_relationship/service.py:53-63 | For any order of the listed edges: all wanted ones are followed unless cut off, cut off exactly when one was followed and max_nodes is reached, and at most max(2, max_nodes) nodes result |
| Traversal.Round | apps/relationship-service/src/sentinel_relationship/service.py:51-66 | One round takes the frontier from the sphere of radius k to that of radius k + 1, and visited from ball to ball, unless cut off |
| Traversal.Search | apps/relationship-service/src/sentinel_relationship/service.py:46-68 | Not truncated: visited is the ball of radius max_depth and the edges are exactly those leaving nodes at distance below it. Always: each visited node is joined to the root by at most max_depth collected edges, both ends of each edge are visited, and at most max(2, max_nodes) nodes are |
| Traversal.AnswerOfSearch | apps/relationship-service/src/sentinel_relationship/service.py:46-68 | The same two statements of any result of the search, about the stored edges alone |
| Traversal.TruncatedExactly | apps/relationship-service/src/sentinel_relationship/service.py:61-63 | The flag is set if and only if the complete answer has an edge and at least max_nodes nodes, whatever order the edges came in |
| Traversal.AllNodesFoundExactly | apps/relationship-service/src/sentinel_relationship/service.py:50-68 | Every node within max_depth is visited if and only if there are at most max(2, max_nodes) of them |
| Traversal.FlaggedWithoutMissingNodesExactly | apps/relationship-service/src/sentinel_relationship/service.py:61-63 | The flag is set although no node is missing if and only if the complete answer has an edge and between max_nodes and max(2, max_nodes) nodes |
| Traversal.FlaggedAnswerCanBeComplete | apps/relationship-service/src/sentinel_relationship/service.py:61-63 | A store with a single active edge and a limit of two nodes: the answer with all nodes and all edges, flagged, is a result, and the only one |
| Traversal.LimitKeptExactly | apps/relationship-service/src/sentinel_relationship/service.py:60-63 | At most max_nodes nodes are returned if and only if max_nodes is at least two or the root has no edge to follow |
| Traversal.LimitOfOneVisitsTwo | apps/relationship-service/src/sentinel_relationship/service.py:60-63 | With a node limit of one, a root with an edge yields two nodes and the flag |
| Traversal.ExactWhenFrontierEmpty | apps/relationship-service/src/sentinel_relationship/service.py:67-68 | Stopping at an empty frontier gives what all remaining rounds would have given |
| Traversal.VisitedNodesExist | apps/relationship-service/src/sentinel_relationship/repository.py:141-151 | In a reachable store every visited id has a node, except a root that has none, and then there are no edges |
| Traversal.Graph | apps/relationship-service/src/sentinel_relationship/service.py:45-94 | Each returned edge is active, of the tenant and of a type asked for, any when none is. Not truncated: the visited nodes are exactly those reached by a route of at most max_depth such edges in the query's direction, and the edges exactly those that continue a route shorter than that. The final filter drops no edge, and in a reachable store both ends of each edge are among the nodes |
| Paging.CollectedSoFar | apps/inventory-service/src/sentinel_inventory/repository.py:46-54 | What a client has collected after any number of pages is in id order, reaches no further than the cursor, and misses no row below it that matched throughout |
| Paging.StableRowsAppearOnce | apps/inventory-service/src/sentinel_inventory/repository.py:46-54 | Rows may come and go between pages: each row that matched throughout appears exactly once, none twice, none invented |
| Paging.PagingIsOneScan | apps/inventory-service/src/sentinel_inventory/repository.py:46-54 | Over an unchanging table the pages concatenate to the matching rows in id order, in max(1, ceil(n / limit)) pages |
| Paging.UnfinishedWalkHasMore | apps/inventory-service/src/sentinel_inventory/repository.py:51-53 | Over an unchanging table a cursor is only handed out while rows remain beyond the pages so far, so following cursors ends |
| Paging.FollowOneMore | apps/inventory-service/src/sentinel_inventory/repository.py:46-53 | A walk goes on exactly with a page from the last cursor, and may start with any first page |
| Inventory.Repository.ListResources | apps/inventory-service/src/sentinel_inventory/repository.py:28-54 | The first `limit` matching rows of the tenant above the cursor in id order, with a cursor if and only if more match; every row listed is the tenant's and matches, and every such row above the cursor is listed or lies beyond the next cursor |
| Inventory.FirstInOrder | apps/inventory-service/src/sentinel_inventory/repository.py:49 | The smallest ids up to the limit, in order |
| Inventory.Repository.UpsertResource | apps/inventory-service/src/sentinel_inventory/repository.py:155-192 | Spellings of an ARM id that differ in case share one row per tenant, whose id, tenant and subscription never change; the row then says what was reported, up to case of id and type, as seen now, with its version one higher or, if new, with version 1 and the reported subscription; all other rows are untouched |
| Inventory.Repository.Merge | apps/inventory-service/src/sentinel_inventory/repository.py:187-190 | Assigning only the fields that differ leaves the row as observed, and reports a change exactly when the row differs |
| Pipeline.ProjectionNeverConflicts | apps/relationship-service/src/sentinel_relationship/repository.py:27-51 | A projection of a stored row, of its present or any earlier state, never breaks the node table's unique keys |
| Pipeline.StoreBatch | apps/inventory-service/src/sentinel_inventory/worker.py:58-77 | All or nothing: the batch is stored, item after item, if and only if every item's subscription is in the job's scope; each item has one row, the last projection of each row is its final state and says what was reported last, and the count is of the items that made a row or made it differ |
| Pipeline.PostAll | apps/inventory-service/src/sentinel_inventory/worker.py:85-92 | Succeeds if and only if every call is answered; the store ends exactly as far as the link let the projections come, a request whose reply was lost included; on success each row's node shows the last projection, also for ids repeated in the batch |
| Pipeline.BatchProjected | apps/inventory-service/src/sentinel_inventory/worker.py:61-92 | Then every reported item has its row and a node that says the same |
| Pipeline.LastReportsShown | apps/inventory-service/src/sentinel_inventory/worker.py:61-92 | What each resource was reported with last in the batch is what its node says in the end |
| Pipeline.AllGoesWellExactly | apps/inventory-service/src/sentinel_inventory/worker.py:30-100 | A run goes well exactly when each subscription of the job is available, each item fetched is of one of them, and every projection and the rebuild are answered |
| Pipeline.Worker.ClaimJob | apps/inventory-service/src/sentinel_inventory/repository.py:112-124 | Marks an oldest queued job running and no other, and finds none exactly when none is queued |
| Pipeline.Worker.SyncAndProject | apps/inventory-service/src/sentinel_inventory/worker.py:29-101 | Ends without an exception exactly when every outside answer was good, whatever was stored before, with the same statements on what is left |
| Pipeline.Worker.RunOnce | apps/inventory-service/src/sentinel_inventory/worker.py:17-116 | The run leaves the job completed if and only if every outside answer was good, and failed otherwise; the inventory holds everything fetched if it was fetched and in scope, also in a failed run, and is untouched if not; once everything was carried out, even with the last reply lost, every item has its row, each node says what its resource was reported with last, and the edge table is rebuilt to its specification |
| Feed.EveryRunIsSound | apps/inventory-service/src/sentinel_inventory/worker.py:58-100 | For any number of workers whose requests are served one at a time, with projections late, repeated, lost or out of order: both stores keep all unique keys, every edge joins two nodes of its tenant, and every node stands for the row with its id |
| Feed.NoProjectionIsRefused | apps/relationship-service/src/sentinel_relationship/repository.py:27-51 | Served one at a time, no projection is ever refused by a unique key |
| Feed.ArmIdKeepsItsRow | apps/inventory-service/src/sentinel_inventory/repository.py:158-165 | Two spellings of an ARM id, at any two times of a run, name one row if and only if they differ in ASCII case only |
| Feed.StepsRebuild | apps/relationship-service/src/sentinel_relationship/service.py:24-29 | Each delivery to a supported source and each rebuild of one makes its active edges agree with its properties |
| Feed.NodesKeepFirstSpelling | apps/relationship-service/src/sentinel_relationship/repository.py:33-50 | A node keeps the spelling of its ARM id that was delivered first |
| Feed.NodesShowLastDelivery | apps/relationship-service/src/sentinel_relationship/repository.py:45-50 | In every run a node exists exactly when a projection of it was delivered, and shows the content of the one delivered last |
| Feed.RowsShowLastStore | apps/inventory-service/src/sentinel_inventory/repository.py:166-191 | In every run a row shows exactly the item stored in it last |
| Feed.UpToDateExactly | apps/inventory-service/src/sentinel_inventory/worker.py:85-92 | A node shows its row's present content if and only if the projection delivered last has the content of the projection taken last |
| Feed.StaleProjectionWins | apps/relationship-service/src/sentinel_relationship/repository.py:45-50 | A run in which a projection that arrives late overwrites a newer one |
| Feed.LastDeliveriesDecideNodes | apps/relationship-service/src/sentinel_relationship/repository.py:45-50 | Two runs over the same rows whose last deliveries agree in content have the same nodes, up to the spelling of ARM ids |
| Feed.SameNodesSameEdges | apps/relationship-service/src/sentinel_relationship/service.py:32-43 | Once rebuilt, two stores with the same nodes have the same supported sources and the same active edges from them, whatever their edge tables held before |
| Feed.ArrivalOrderIsIrrelevant | apps/relationship-service/src/sentinel_relationship/service.py:14-43 | After any run, two orders of arrival of projections, repeated or not, with the same last projection for each resource give the same nodes and, once rebuilt, the same active edges from supported sources |
| Feed.OneEachInAnyOrder | apps/relationship-service/src/sentinel_relationship/service.py:14-23 | With one projection a resource, any two orders of the same projections have the same last ones |
| Overlap.EveryRunIsSound | apps/relationship-service/src/sentinel_relationship/models.py:26-27 | For any interleaving of overlapping store batches, projections and rebuilds, each reading what is committed and committing or not: both stores keep all unique keys, every edge joins two nodes of its tenant, and every node stands for the row with its id |
| Overlap.RefusedOnlyWhenOverlapped | apps/relationship-service/src/sentinel_relationship/repository.py:27-51 | A transaction that is ready commits, unless another one about one of the same ARM ids or sources has committed since it began |
| Overlap.CommittedSinceMeans | apps/relationship-service/src/sentinel_relationship/repository.py:27-51 | What counts as committed since: the keys of transactions that committed after the transaction last began |
| Overlap.TouchedExactly | apps/relationship-service/src/sentinel_relationship/repository.py:27-51 | A batch is about the ARM ids of its items up to case, a projection about its resource, a rebuild about the sources it planned |
| Overlap.FirstProjectionsClash | apps/relationship-service/src/sentinel_relationship/models.py:26 | Of two overlapping projections that both found no node for a resource, the first to commit has the other refused |
| Overlap.FirstProjectionsCanOverlap | apps/relationship-service/src/sentinel_relationship/models.py:26 | Whenever a resource has a projection but no node there is a run with two such projections, one of which is refused |
| Overlap.BatchesClash | apps/inventory-service/src/sentinel_inventory/repository.py:160-185 | Of two overlapping batches of a tenant that chose different rows for one ARM id, the first to commit has the other refused |
| Overlap.RebuildsClash | apps/relationship-service/src/sentinel_relationship/models.py:46-53 | Of two overlapping rebuilds that would both add one edge, the first to commit has the other refused |
| Overlap.LoneProjectionIsDelivery | apps/relationship-service/src/sentinel_relationship/service.py:14-30 | A projection during which nothing else commits is one delivery of the serial machine |
| Overlap.LoneItemIsStore | apps/inventory-service/src/sentinel_inventory/repository.py:155-192 | A batch of one item during which nothing else commits is one store of the serial machine |
| Overlap.ItemsCanBeStored | apps/inventory-service/src/sentinel_inventory/repository.py:158-185 | A batch can always take in another item: there is a row for it, found or new |
| Overlap.CommitSetsSource | apps/relationship-service/src/sentinel_relationship/repository.py:61-110 | Whatever else committed meanwhile, a commit leaves each source to which no edge was added since its rebuild was planned with exactly the active edges planned |
| Overlap.LoneSweepReconciles | apps/relationship-service/src/sentinel_relationship/service.py:32-43 | A rebuild of a whole tenant, planned from the tables as they are, can commit and leaves the tenant's edges exactly as its supported nodes' properties call for |
| Accounts.TextRoundTrip | apps/identity-service/src/sentinel_identity/account.py:12-13 | The text of a UUID has 36 characters and determines the UUID |
| Accounts.TextOfParts | apps/identity-service/src/sentinel_identity/account.py:12-13 | The text of a UUID is its digits in groups of 8, 4, 4, 4 and 12 |
| Accounts.KeySpelling | apps/identity-service/src/sentinel_identity/account.py:3-13 | A key is spelled "personal:" with both ids for the consumer tenant, and "tenant:" with the organisation's otherwise |
| Accounts.ScopeKeyExactly | apps/identity-service/src/sentinel_identity/account.py:10-13 | Two identities have the same scope key if and only if they are of the same organisation or the same personal account; in particular no organisation's key is a personal one |
| IdentityRuns.EveryRunIsSound | apps/identity-service/src/sentinel_identity/service.py:25-120 | In every serial run: scope keys and users are unique, no workspace is empty, a personal workspace's key is made of its user's object id, every role holds exactly its permissions that are in the catalogue, assignments stay within a tenant, and each workspace has exactly one administrator |
| IdentityRuns.PersonalWorkspaceIsSingleUser | apps/identity-service/src/sentinel_identity/account.py:10-13 | A personal workspace never has two users |
| IdentityRuns.SharedWorkspaceExactly | apps/identity-service/src/sentinel_identity/account.py:10-13 | The user rows of any two principals let in during a run are in one workspace if and only if the principals are of the same organisation or are the same personal account, and are one row if and only if the object ids agree too |
| IdentityRuns.RowsShareWorkspaceExactly | apps/identity-service/src/sentinel_identity/account.py:10-13 | The same of any two user rows of a sound store; and a principal's row is in the workspace that the principal's key resolves to |
| IdentityRuns.UsersAreInTheirOwnWorkspace | apps/identity-service/src/sentinel_identity/service.py:26-44 | In every run each user row comes from a request of the run that was let in: it has that principal's object id and stands in the workspace with that principal's key, so no stranger is ever put into a workspace |
| IdentityRuns.AcceptedRequestsLeaveRows | apps/identity-service/src/sentinel_identity/service.py:66-72 | Conversely each login, and each bearer request that was not refused, leaves its principal's row in the workspace with the principal's key, in every later state |
| IdentityRuns.WorkspaceIsStable | apps/identity-service/src/sentinel_identity/repository.py:37-41 | Once onboarded, a principal resolves to the same workspace for ever |
| IdentityRuns.EffectiveExactly | apps/identity-service/src/sentinel_identity/repository.py:202-216 | Effective permissions are the administrator's set for an administrator, the reader's for any other user with a role, and none for a user without |
| IdentityRuns.LoggedInUsersHaveRoles | apps/identity-service/src/sentinel_identity/service.py:73-110 | Each login of a run leaves its principal's row with a role, in every later state |
| IdentityRuns.RolesComeFromLogins | apps/identity-service/src/sentinel_identity/service.py:73-110 | Conversely whoever has a role has logged in; bearer requests give none |
| IdentityRuns.PermissionsExactly | apps/identity-service/src/sentinel_identity/service.py:83-108 | The administrator role has all fifteen permissions, the reader role exactly the four for reading |
| IdentityRuns.PermissionsOfUsers | apps/identity-service/src/sentinel_identity/repository.py:202-216 | In every run with the whole catalogue loaded a user may do everything as the workspace's administrator, otherwise exactly read inventory, relationships, analyses and audit records if the user has a role, and nothing if not |
| IdentityRuns.RequestShowsOnRow | apps/identity-service/src/sentinel_identity/repository.py:62-86 | A request that is let in leaves its principal's names on the principal's row, adds one to its version, and leaves every other user row as it was |
| IdentityRuns.LoginNamesWorkspace | apps/identity-service/src/sentinel_identity/service.py:60-65 | After a login the workspace is named as given; or else, if personal, like the account; or else as before, at first by the organisation's identifier |
| IdentityRuns.BearerRefusesExactly | apps/identity-service/src/sentinel_identity/service.py:26-46 | On any tables a bearer request is refused exactly when the workspace is unknown, or not active, or the user is disabled, and then changes nothing |
| IdentityRuns.AdministratorIsForEver | apps/identity-service/src/sentinel_identity/service.py:66-110 | A workspace has exactly one administrator, the same one in every continuation, who keeps the full permission set although later logins ask for the reader role |
| IdentityRuns.FounderIsAdministrator | apps/identity-service/src/sentinel_identity/service.py:60-73 | The principal whose login creates a workspace is its administrator |
| IdentityStore.AdministratorRoleExactly | apps/identity-service/src/sentinel_identity/service.py:60-73 | On any tables a login takes the administrator role if and only if its workspace is unknown or still without users |
| IdentityRuns.PermissionsNeverShrink | apps/identity-service/src/sentinel_identity/repository.py:118-140 | Nobody's effective permissions ever shrink |
| IdentityRuns.BearerKeepsSound | apps/identity-service/src/sentinel_identity/service.py:25-49 | A bearer request keeps every invariant and changes no workspace, role, grant or assignment; in a sound store it is refused exactly when the workspace is unknown |
| IdentityStore.Service.GetOrCreateTenant | apps/identity-service/src/sentinel_identity/repository.py:30-52 | Finds the workspace with the key or adds it, renames it only to a given name, and touches no other table |
| IdentityStore.Service.SynchronizeUser | apps/identity-service/src/sentinel_identity/repository.py:62-86 | Updates or adds the one user of the workspace with the object id, and returns it |
| IdentityStore.Service.GetOrCreateRole | apps/identity-service/src/sentinel_identity/repository.py:103-116 | Returns the tenant's role of that name, added if it was missing |
| IdentityStore.Service.GrantPermissions | apps/identity-service/src/sentinel_identity/repository.py:118-127 | Adds the wanted permissions that the catalogue has, in any order, and removes none |
| IdentityStore.Service.AssignRole | apps/identity-service/src/sentinel_identity/repository.py:129-140 | Adds the assignment once |
| IdentityStore.Service.OnboardOauthUser | apps/identity-service/src/sentinel_identity/service.py:51-120 | The in-place steps, in the code's order, leave the tables the login specification gives, which the `IdentityRuns` results describe, and report that user's effective permissions |
| IdentityStore.Service.ResolveAndSync | apps/identity-service/src/sentinel_identity/service.py:25-49 | Refuses and leaves the tables alone, or synchronises the user, as the bearer specification says, and reports the effective permissions |

## Left out

- Leases.SettledIsFinal: assumes that no worker acts after its lease has lapsed, because settling is not fenced; `Leases.ReclaimableExactlyWhenLapsed` and `Leases.LapsedLeaseUndoesPublication` say what happens otherwise.
- Leases.DeadNoSooner: rests on the same assumption.
- Leases.BudgetHolds: rests on the same assumption; `Leases.AttemptsBeyondTwenty` is the result without it.
- Leases.AtMostTwentyClaimsEach: rests on the same assumption; `Leases.SlowWorkersExceedAnyBound` shows that it is needed.
- Leases.RelaysDrain: rests on the same assumption.
- OutboxWorker.Run: one relay without crashes; `Leases.RelaysDrain` is the result for any number of relays.
- Delivery.EffectivelyOnce: an event id drawn twice for different events is excluded; ids are random UUIDs.
- RelationshipStore.Repository.RebuildAll: the equality with the specification is for supported sources and for a rebuild that no other request overlaps; what unsupported ones keep is `RelationshipStore.UnsupportedKeepsEdges`, and what an overlapped one does is `Overlap.CommitSetsSource`.
- Feed.EveryRunIsSound: store batches, projections and rebuilds are served one at a time; `Overlap.EveryRunIsSound` is the result for overlapping ones.
- Feed.NoProjectionIsRefused: true of requests served one at a time; `Overlap.RefusedOnlyWhenOverlapped` is the result for overlapping ones.
- Feed.ArrivalOrderIsIrrelevant: of deliveries served one at a time, and nodes agree up to the spelling of their ARM id, which is that of the first projection to arrive.
- Pipeline.Worker.RunOnce: no other worker's request overlaps the run; with others, a request can be refused and the job fails.
- Overlap.RefusedOnlyWhenOverlapped: a refusal is found at commit; waiting on another transaction's uncommitted insert, and deadlocks, are not modelled.
- Traversal.FlaggedWithoutMissingNodesExactly: about nodes; whether a flagged answer also has every edge depends on the order in which the database lists them.
- Inventory.Repository.ListResources: the optional filters are one arbitrary predicate on rows.
- IdentityRuns.EveryRunIsSound: requests run one after another; two concurrent first logins of one workspace are not modelled.
- SHA-256 and the JSON text that is hashed: an abstract function of the hashed fields, injective where stated.
- SQL: tables are sequences, maps and sets; row locks, the advisory lock and unique keys are guards of atomic steps under read-committed visibility. Rows that are never deleted are named by their position.
- The object-relational mapper's change tracking: an assignment always reaches the row, and the failure of a settlement's own transaction counts as a crash.
- The base64 text of a page cursor: the cursor is the id itself.
- Response lists are sets where the code fixes no order.
- String case folding and trimming: ASCII only.
- Timestamps, confidence and source columns that nothing modelled reads: first and last observation times, heartbeat, consent and login times, error summaries; numbers in JSON are integers.
- Location, kind, SKU, tags and `missing_since` of resources, and the subscription and resource-group tables.
- Activity events and the audit search.
- `list_edges`, single-row lookups, job creation, risk analysis, the action catalogue and operations: lookups or single-branch facts.
- `resources_changed` as a measure of real change: it counts as in `Pipeline.StoreBatch`, and the time of observation is among the compared fields.
- A crash of the inventory worker between its commit and the end of projection: the job then stays completed.
- OAuth, JWT, PKCE, token encryption and connections, sessions and the bootstrap administrator: a principal is taken as validated.
- HTTP, row-level security, session variables, the web application, deployment and migrations.
