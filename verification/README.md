# kacho-registry: a Dafny model

kacho-registry puts a control plane and an authorising proxy in front of a shared OCI content
engine (zot). Four stores have to stay in step: Postgres rows, an outbox of authorisation tuples,
the engine's content, and freshness tables with a lifetime. This project models the parts whose
correctness depends on how steps interleave, fail or repeat, and proves what they keep.

`dafny verify dfyconfig.toml` checks everything.

| file | component |
|---|---|
| `Common.dfy`, `FgaIntents.dfy` | results and errors; authorisation tuples and intents |
| `RegistryStore.dfy`, `UseCases.dfy` | tables, one writer transaction, what each use-case writes and emits |
| `OutboxOrder.dfy`, `OutboxFold.dfy`, `OutboxConflicts.dfy`, `PublicGrant.dfy`, `TupleEffects.dfy`, `OutboxWitnesses.dfy` | interleaved transactions under row and advisory locks; the outbox folded into tuples; exact conditions and counterexamples |
| `RegisterApplier.dfy`, `GrantDelivery.dfy`, `LiveDelivery.dfy` | applying outbox rows to an unreliable peer, at least once, also while transactions go on |
| `PromoteRace.dfy`, `RenameFlow.dfy`, `RepositoryRemoval.dfy`, `RegistryDeletion.dfy` | the update, rename and delete workers |
| `EngineRename.dfy`, `BlobScan.dfy` | engine-side algorithms: two-phase rename, bounded concurrent scan |
| `MembershipCache.dfy`, `TtlTables.dfy` | the verdict cache and the freshness tables, against unbounded references |
| `DataPlane.dfy`, `DataPlaneSafety.dfy`, `DataPlaneRefusals.dfy`, `FirstPush.dfy` | the pull/push protocol as a step system; why it forwards, why it refuses, that a first push completes |
| `JwksCache.dfy` | the signing-key cache under concurrent callers |
| `Cursors.dfy`, `CatalogPages.dfy`, `KeysetPages.dfy`, `Listings.dfy`, `RepositoryUnion.dfy` | cursor codecs and the three pagination schemes |
| `OciPath.dfy`, `RepositoryNames.dfy` | the path parser and printer, and the repository-name language |

## Assumptions

- One monotone clock; a freshness query and the cutoff it uses are one step.
- The outbox drainer (another library) repeats a row until it is sent and does not attempt a row while a
  visible one with a smaller id about one of its tuples is unsent.
- Registry ids are fresh and contain no `/`; digests contain no `|`.
- Manifests fit under the size limit, so a read manifest is a whole manifest.
- The authoriser and all recorders are configured.
- Deleting a manifest by digest removes every tag of that repository with that digest, and no other.
- Go strings are modelled as sequences of byte-valued characters.

## Where the code differs from what is promised of it

Each of these is proved with an exact condition or a concrete run.

- *Public grant equals visibility* holds at a commit if and only if the commit is harmless
  (`CommitKeepsGrantsIffHarmless`). Harmful are exactly: a rename whose visibility, read before the
  transaction, is no longer that of the row; renaming as ephemeral what has meanwhile become a PUBLIC
  row; and removing a registry that still has PUBLIC rows. `OutboxWitnesses` has the runs.
- *Commit order per object* holds for a tuple iff no two transactions under different locks can run at the
  same time and leave it in opposite states (`DrainAgreesIffNoConflict`). Public-grant tuples have one
  lock and are safe; every repository's parent tuple is written under two, the registry row and the
  advisory lock, and is not (`ParentTupleFollowsNoCommitOrder`).
- *Immediate pull*: a denied read is forwarded iff the reader's grant is on record at that moment
  (`DeniedReadForwardedIffGrantStands`); the grant is recorded after the manifest is published, and a read
  concurrent with the end of the PUT is answered 404 (`ReadInsideTheWindowIsHidden`).
- *Bounded key lifetime*: the comment on the key lookup says it never serves from an expired cache; it does
  while the refetch throttle is closed, without any bound on the key's age when fetches keep failing
  (`ExpiredKeyServedIffThrottled`, `KeyServedAtAnyAge`).
- *Registry deletion* leaves behind exactly what was pushed after the worker's own emptiness observation and
  not erased since (`DeletionProtocol`); one push in between is orphaned (`PushAfterRecheckIsOrphaned`).
- *Promotion* of an ephemeral repository writes the request's fields even outside the update mask
  (`PromotionIsPatchIffUnmaskedEmpty`).
- *Union listing*: a durable, tagged repository beyond the first window is listed twice (`ListingIsTheUnion`).
- *Rename with referrers*: its description says tags, manifests and referrers move; a manifest moves iff it
  has a tag of its own (`RenameRepository`, `AllManifestsMoveIffTagged`), so referrers and the children of
  an index stay behind unless tagged (`ReferrerStaysBehind`).
- An overlong `max-age` can wrap to a lifetime of a fraction of a second (`HugeMaxAgeWraps`).

## Model

| member | source | states |
|---|---|---|
| FgaIntents.RepoObjectIdInjective | internal/domain/fga_intent.go:277 | different repositories of different registries never share an authorisation object |
| FgaIntents.PublicGetTupleInjective | internal/domain/fga_intent.go:336-342 | one public-grant tuple stands for exactly one repository |
| FgaIntents.PlanesNameSubjectsAlike | internal/domain/fga_intent.go:181-216 | control plane and data plane name a principal by the same subject iff its id prefix agrees with its type |
| FgaIntents.WhoHasNoSubject | internal/domain/fga_intent.go:181-216 | only a caller without an identity has no subject, and on the control plane a system one |
| FgaIntents.WildcardOnlyForAnonymous | internal/domain/fga_intent.go:200-234 | a caller acts as the public wildcard iff anonymous access is configured and it is that principal |
| RegistryStore.MeansAppend | internal/repo/kacho/pg/repository_config.go:127-165 | appending a SET clause bound to the next placeholder patches exactly one more column of any row |
| RegistryStore.BuildUpdate | internal/repo/kacho/pg/repository_config.go:127-165 | the assembled UPDATE, run on any row, changes exactly the flagged fields; keys keep placeholders 1 and 2 |
| RegistryStore.Database.RunStatement | internal/repo/kacho/pg/repository_config.go:127-165 | a PATCH assembled from its flags and run under the guard means what the abstract update says |
| RegistryStore.Database.RunTx | internal/repo/kacho/pg/repository_config.go:210-233 | guard, statement and intents become visible together or not at all, whatever fails; success means they did, and a lost acknowledgement leaves the caller with an outage |
| UseCases.RequestsWrite | internal/repo/kacho/pg/repository_config.go:105-233 | each use-case that goes through writes exactly its registry or row, each field as asked, and nothing beside it |
| UseCases.RequestsRefused | internal/repo/kacho/pg/repository_config.go:105-253 | each use-case fails exactly when its registry is gone or being deleted, its new name taken or its row missing, with the error that says so |
| OutboxOrder.IdsFollowCommitOrderPerLock | internal/repo/kacho/pg/registry.go:348-370 | over every interleaving with commits and rollbacks, ids of transactions sharing a lock grow in commit order |
| OutboxOrder.StepKeepsInv | internal/repo/kacho/pg/repository_config.go:240-253 | begin, emit, commit and rollback keep: locks exclusive, drawn ids invisible and above all committed ids of the lock |
| OutboxFold.TransactionsAreSerial | internal/repo/kacho/pg/repository_config.go:210-253 | the tables are those of the committed transactions run one after another in commit order |
| OutboxFold.CommitAppliesRows | internal/repo/kacho/pg/registry.go:395-415 | a commit changes the fold of the outbox exactly as its own rows applied last, for tuples its lock guards |
| OutboxFold.DrainingFollowsCommits | internal/repo/kacho/pg/registry.go:348-370 | for a tuple guarded by one lock, draining in id order ends where applying in commit order ends |
| OutboxConflicts.DrainAgreesIffNoConflict | internal/repo/kacho/pg/registry.go:348-370 | for any family of transactions, draining in id order agrees with commit order in every interleaving iff no two of them under different locks can run at the same time and leave the tuple in opposite states |
| OutboxConflicts.TwoLocksDisagree | internal/repo/kacho/pg/registry.go:395-415 | any two such transactions, with any number of rows, have a run in which the later commit has the smaller ids and is undone by draining |
| OutboxConflicts.OneLockNeverConflicts | internal/repo/kacho/pg/repository_config.go:240-253 | a tuple whose every writer takes the same lock is never in conflict |
| PublicGrant.RowsDecideGrant | internal/apps/kacho/api/registry/update_repository.go:161-169 | what the rows of each use-case do to the public tuple of any name |
| PublicGrant.GrantKeptIffHarmless | internal/apps/kacho/api/registry/rename_repository.go:98-128 | a transaction's rows agree with its row change on every name iff it is harmless, a condition on what it read before |
| PublicGrant.RowLockGuardsGrant | internal/repo/kacho/pg/repository_config.go:240-253 | every transaction that mentions a public tuple holds that registry's row lock |
| PublicGrant.CommitKeepsGrantsIffHarmless | internal/repo/kacho/pg/repository_config.go:210-253 | from an agreeing state, grants and visibilities agree after a commit iff the commit is harmless |
| PublicGrant.PublicGrantEqualsVisibility | internal/repo/kacho/pg/repository_config.go:105-233 | over every interleaved run of harmless transactions, the folded outbox grants public read exactly to the PUBLIC rows |
| TupleEffects.RowsDecideTuple | internal/domain/fga_intent.go:236-342 | what the rows of each use-case do to every tuple other than a grant, spelled out: pushes, creations and renames register parent and owner, removals take the parent and leave the owner, and a registry's project tuple comes and goes with it |
| TupleEffects.RepoIntentTuples | internal/domain/fga_intent.go:236-342 | the tuples of a push, a removal and a grant, spelled out, with the project that contains them |
| TupleEffects.ProjectKeptIffCurrent | internal/apps/kacho/api/registry/update.go:90-95 | a transaction keeps a registry's project tuple equal to its row iff the project it carries is the row's |
| TupleEffects.ProjectTupleFollowsRow | internal/repo/kacho/pg/registry.go:348-370 | over every interleaving with current projects, the drained outbox gives each registry the project tuple of exactly its own project, and none once it is removed |
| OutboxWitnesses.HarmfulHistoryDisagrees | internal/apps/kacho/api/registry/rename_repository.go:98-128 | any harmful transaction that can commit after a serial history gives a reachable disagreeing state |
| OutboxWitnesses.StaleRenameDisagrees | internal/apps/kacho/api/registry/rename_repository.go:98-128 | a rename with a stale visibility leaves a PUBLIC row without its grant |
| OutboxWitnesses.RemovedRegistryDisagrees | internal/repo/kacho/pg/registry.go:294-317 | removing a registry with PUBLIC rows leaves their grants behind |
| OutboxWitnesses.PublicTupleNeverConflicts | internal/repo/kacho/pg/repository_config.go:240-253 | the public tuple of any repository has one lock, so its drain order is its commit order |
| OutboxWitnesses.ParentTupleFollowsNoCommitOrder | internal/repo/kacho/pg/registry.go:324-370 | the parent tuple of any repository of any registry has two locks and is in conflict: in some run draining undoes the registration that committed last |
| PromoteRace.Submit | internal/repo/kacho/pg/repository_config.go:210-233 | one transaction under any fate: success means it took effect, a domain error that the statement refused it, an outage that it took effect as a whole or not at all |
| PromoteRace.ApplyRepoUpdate | internal/apps/kacho/api/registry/update_repository.go:111-158 | with arbitrary commits in between and any call failing, success means the row has every masked field, and the effect is at most one whole transaction; when nothing fails it succeeds iff the registry is ACTIVE at each of its transactions and the row is there at once, or is inserted, or is found by the insert and still there at the retry |
| PromoteRace.UndisturbedUpdateGoesThrough | internal/apps/kacho/api/registry/update_repository.go:116-144 | with nobody else running, every repository of an ACTIVE registry, durable or not, meets that condition |
| PromoteRace.PromotionIsPatchIffUnmaskedEmpty | internal/apps/kacho/api/registry/update_repository.go:111-158 | promoting equals patching an empty row iff the request's unmasked fields are empty |
| RenameFlow.AssertTargetFree | internal/apps/kacho/api/registry/rename_repository.go:143-157 | a target with a row or with tags is refused, nothing else is reported as taken, and a failed read refuses too |
| RenameFlow.MoveContent | internal/apps/kacho/api/registry/rename_repository.go:88-96 | nothing moves into a taken target; an answered engine moves everything into a free one |
| RenameFlow.DoRename | internal/apps/kacho/api/registry/rename_repository.go:78-137 | with commits between any two of its steps and any read, engine call or transaction failing: no tag is ever lost, a taken target moves nothing, the tables see at most one whole rename, which carries the visibility of the row as read or the default of the registry as read and is harmless if that is still current, and success means content and overlay row both have the new name; when nothing fails it succeeds iff the target is free and the row can be moved |
| RenameFlow.RenameRow | internal/apps/kacho/api/registry/rename_repository.go:98-128 | at most one transaction of its own, a rename that carries what was read, and on success the row under the new name only; when nothing fails it succeeds iff the registry is ACTIVE, the new name free and a durable row still there |
| RenameFlow.CurrentRenameIsHarmless | internal/apps/kacho/api/registry/rename_repository.go:98-128 | a rename is harmless at its commit whenever the row still has the visibility it was read with, or an ephemeral repository has not become a PUBLIC row |
| RenameFlow.RowsAreExplicit | internal/repo/kacho/pg/repository_config.go:105-165 | over every run of use-cases each row is explicitly PUBLIC or PRIVATE |
| RepositoryRemoval.DeleteRepository | internal/apps/kacho/api/registry/delete_repository.go:54-77 | a tagged repository is never touched, success means the row is gone, and the only effect, also after an outage, is one whole transaction or none; when nothing fails it succeeds iff there are no tags and the registry is ACTIVE |
| RegistryDeletion.DeletionProtocol | internal/apps/kacho/api/registry/delete.go:75-122 | over all interleavings: no write after a mark, removal after the worker's own mark and own empty observation, success means gone, and the outbox holds one row, the unregister of this registry's project tuple, iff the row is gone |
| RegistryDeletion.ReportsHaveCauses | internal/apps/kacho/api/registry/delete.go:75-122 | a worker reports failure iff one of its calls failed, the reply to its removal was lost or it found content, and success iff it removed the row or found it removed |
| RegistryDeletion.NeverActiveAgain | internal/repo/kacho/pg/registry.go:275-287 | no step leads from DELETING or removed back to ACTIVE |
| RegistryDeletion.PushAfterRecheckIsOrphaned | internal/apps/kacho/api/registry/delete.go:75-122 | a push between re-check and removal leaves content without a registry |
| RegisterApplier.ClassificationIsSound | internal/clients/iam/register_applier.go:165-181 | codes 0, 6 and 3 and no others are applied, duplicate and malformed; applied or duplicate means the tuple is as wanted, malformed or duplicate that nothing changed, and everything else is a failure |
| RegisterApplier.Peer.Call | internal/clients/iam/register_applier.go:95-156 | one call to a peer that serves, rejects or fails with any status or none, possibly after applying |
| RegisterApplier.ApplyRow | internal/clients/iam/register_applier.go:95-156 | an attempt goes on past applied and duplicate answers and ends early only on a malformed one, as permanent, or a failed one, as transient; it marks the row sent iff every call passed, and as all-duplicates iff every call was one; it leaves a prefix of the row's effects, all of them when sent |
| RegisterApplier.DrainRow | internal/clients/iam/register_applier.go:95-156 | over any number of attempts the peer has a prefix of the row's effects, and all once it is sent; a serving peer gets it sent on the first attempt, and it is given up early only after a malformed answer |
| RegisterApplier.PrefixesMerge | internal/clients/iam/register_applier.go:95-156 | two partial attempts together leave the longer prefix |
| RegisterApplier.RegisteredTuplesFormPrefix | internal/domain/fga_intent.go:239-251 | tuple by tuple, nothing is registered before everything earlier in the list |
| RegisterApplier.EmittedRowsDecode | internal/clients/iam/register_applier.go:58-74 | no outbox row that a use-case writes is poison to the decoder |
| RegisterApplier.DrainOutbox | internal/clients/iam/register_applier.go:95-156 | once all rows of a given outbox are sent the peer's tuples are those of its fold, and a serving peer gets them all sent |
| GrantDelivery.DeliverGrants | internal/clients/iam/register_applier.go:95-156 | draining the outbox of a finished run makes exactly the PUBLIC repositories publicly readable |
| LiveDelivery.DeliveryFollowsCommits | internal/clients/iam/register_applier.go:95-156 | with commits, sends and failing attempts in any order: whenever all visible rows are sent, a tuple that one lock guards is at the peer iff the last commit about it registered it |
| LiveDelivery.LiveGrantsEqualVisibility | internal/repo/kacho/pg/repository_config.go:105-233 | over every interleaving of harmless transactions and delivery attempts, whenever all visible rows are sent exactly the PUBLIC repositories are publicly readable |
| LiveDelivery.LiveProjectsFollowRows | internal/domain/fga_intent.go:236-275 | and a registry's project tuple is there iff the registry is, for its own project only |
| LiveDelivery.DeliveryCanFinish | internal/clients/iam/register_applier.go:95-156 | delivery never gets stuck: in every state attempts that succeed send every visible row |
| EngineRename.Engine.PutManifest | internal/clients/zot/repository.go:194-214 | publishes the tag, or with a lost reply may have |
| EngineRename.Engine.DeleteTag | internal/clients/zot/distribution.go:71-88 | removes all tags of the resolved digest; an absent tag is a success; a failure may have taken effect |
| EngineRename.Engine.CopyTags | internal/clients/zot/repository.go:118-127 | in every state of the copy phase the old name is untouched |
| EngineRename.Engine.DeleteTags | internal/clients/zot/repository.go:128-134 | in every state of the delete phase each tag still resolves under the new name |
| EngineRename.Engine.RenameRepository | internal/clients/zot/repository.go:108-135 | at every engine state and every failure each original tag resolves to its manifest under one of the names; success moves all tags, even those that share a digest, and of the manifests exactly the tagged ones; no other repository changes |
| EngineRename.DeleteTakesSiblings | internal/clients/zot/distribution.go:71-88 | deleting one tag removes only it iff no other tag of the repository shares its digest |
| EngineRename.AllManifestsMoveIffTagged | internal/clients/zot/repository.go:108-135 | a rename takes every manifest along, referrers and index children included, iff each is tagged or already in the target |
| EngineRename.ReferrerStaysBehind | internal/apps/kacho/api/registry/rename_repository.go:29-31 | an index with a child and a referrer arrives without either |
| BlobScan.ManifestHasDigest | internal/clients/zot/backend.go:61-71 | true iff the digest is the config or one of the layers |
| BlobScan.StepKeepsInv | internal/clients/zot/backend.go:105-163 | every step of loop, fetches, cancellation and content changes keeps the scan's bookkeeping true |
| BlobScan.AtMostEightFetches | internal/clients/zot/backend.go:58-58 | no schedule has more than eight fetches under way |
| BlobScan.EightFetchesAtOnce | internal/clients/zot/backend.go:105-163 | with eight tags or more some schedule has eight under way |
| BlobScan.VerdictIsRight | internal/clients/zot/backend.go:82-163 | for every schedule: true iff a fetched manifest has the digest; false only if every listed tag was read without it or had vanished; exactly these two are cacheable |
| BlobScan.QuietVerdictIsExact | internal/clients/zot/backend.go:105-163 | on an unchanging repository the answer is exactly whether some tag's manifest has the digest |
| BlobScan.NeverStuck | internal/clients/zot/backend.go:117-155 | until the verdict the scan always has a step of its own |
| BlobScan.ScanTerminates | internal/clients/zot/backend.go:117-155 | n tags take at most 6n + 3 steps under every schedule, and then there is a verdict |
| BlobScan.ScanStopsEarly | internal/clients/zot/backend.go:105-163 | once the blob is found, a fetch failed or the caller is gone, at most the launch already begun follows, and once it is found no fetch starts |
| BlobScan.FirstFailureIsReported | internal/clients/zot/backend.go:105-163 | the first failure is kept, and it is the verdict unless the blob was found |
| BlobScan.AnswersAreTrue | internal/clients/zot/backend.go:105-163 | over a repository that changes while it is scanned: true means some tag's manifest held the digest at some moment, false that every listed tag was seen without it |
| BlobScan.SomeAnswer | internal/clients/zot/backend.go:105-163 | whatever the repository holds, some schedule of the scan ends with an answer |
| MembershipCache.BlobCacheKeyInjective | internal/clients/zot/blob_scope_cache.go:88-90 | two lookups share a key only if they ask the same question |
| MembershipCache.SlashInRegistryCollides | internal/clients/zot/blob_scope_cache.go:88-90 | without slash-free registry ids keys can collide |
| MembershipCache.Cache.Get | internal/clients/zot/blob_scope_cache.go:50-62 | a hit is the latest verdict ever stored for the key, less than the TTL ago |
| MembershipCache.Cache.Set | internal/clients/zot/blob_scope_cache.go:66-84 | bounded size; a live verdict is evicted only when the live ones alone leave no room |
| MembershipCache.Cache.DropArbitrary | internal/clients/zot/blob_scope_cache.go:76-81 | whichever order the map iterates in, the loop ends with room left |
| TtlTables.Table.Record | internal/repo/kacho/pg/push_grant.go:48-60 | the upsert refreshes its row's time |
| TtlTables.Table.Delete | internal/repo/kacho/pg/push_grant.go:87-99 | the deletion removes its row only |
| TtlTables.Table.SweepStale | internal/repo/kacho/pg/pending_blob.go:83-94 | removes and counts exactly the stale rows, and changes no answer |
| TtlTables.Table.Fresh | internal/repo/kacho/pg/pending_blob.go:63-79 | answers as a query over the full, unswept, history would |
| DataPlaneSafety.GrantLogAgrees | internal/repo/kacho/pg/push_grant.go:65-81 | a grant is found iff one was recorded after the cutoff with no deletion since |
| DataPlaneSafety.StepKeepsInv | internal/dataplane/handler.go:185-610 | every step of every request keeps: what a request has established by where it stands |
| DataPlaneSafety.PushesAreJustified | internal/dataplane/handler.go:412-475 | over every run: a push that reached the engine was told once, truly of that moment, whether its repository exists, and passed v_update on the repository if it does and v_create on the registry if it does not; the status it gets is the engine's |
| DataPlaneSafety.ScansLookForward | internal/clients/zot/backend.go:105-163 | a scan sees nothing of the time before its request began it |
| DataPlaneSafety.BlobReadsAreJustified | internal/dataplane/handler.go:185-302 | a forwarded blob was held by a tagged manifest of that repository while a scan looked, with a verdict within the cache TTL, or was finalised into it by an authorised pusher within the pending TTL; and the reader had v_get on the repository, or its own standing push grant, or found no repository, had v_create on the registry and reads a pending upload |
| DataPlaneSafety.DeniedReadsAreOwnPushes | internal/dataplane/handler.go:319-400 | a read forwarded without an allowing check follows the reader's own manifest PUT within the TTL, with no grant deletion between |
| DataPlaneSafety.MountsAreJustified | internal/dataplane/handler.go:556-610 | a forwarded mount passed v_get on the source and the check that the existence of its target demands, and a tagged manifest of the source repository held its blob while a scan looked |
| DataPlaneSafety.SuccessMeansRecorded | internal/dataplane/handler.go:514-531 | no finalize is answered 2xx before its blob is on record |
| DataPlaneSafety.SuccessMeansRegistered | internal/dataplane/handler.go:452-475 | a manifest PUT answered 2xx has published; its push grant is on record, and its registration too if the repository was new, unless writing that failed |
| DataPlaneRefusals.RefusalsHaveReasons | internal/dataplane/handler.go:185-366 | a hidden read was denied with neither bridge holding, or its blob was neither scanned nor pending; reads are never answered 403; a refused push was denied exactly the right that its repository's existence demands, a refused mount that or v_get on its source |
| DataPlaneRefusals.MissesAreReal | internal/repo/kacho/pg/push_grant.go:65-81 | an upload or grant that was not found had not been recorded within the TTL, or had been deleted since |
| DataPlaneRefusals.DroppedGrantHides | internal/dataplane/handler.go:367-400 | once a grant is deleted, and until its subject pushes again, a denied read is hidden |
| DataPlaneRefusals.AbsencesAreReal | internal/clients/zot/backend.go:105-163 | a scan misses a blob only if each tag listed was absent or without it at some moment of the scan |
| DataPlaneRefusals.FailClosedIffFailure | internal/dataplane/handler.go:412-531 | 503 exactly on a dependency's failure, except in the bookkeeping after a published manifest |
| FirstPush.FirstPushSucceeds | internal/dataplane/handler.go:196-233 | with only v_create, and whatever the subject looked for before, every upload, finalize, manifest PUT by digest or tag and every read of what was pushed that ends, ends well, whatever the cache says |
| FirstPush.FirstPushIsNeverStuck | internal/dataplane/handler.go:423-531 | each request of that subject always has an answer it can get |
| FirstPush.RequestsEnd | internal/dataplane/handler.go:185-610 | every answer brings a request closer to its end |
| FirstPush.DeniedReadForwardedIffGrantStands | internal/dataplane/handler.go:361-366 | a denied read is forwarded iff the reader's grant is on record, within the TTL and undeleted |
| FirstPush.ReadInsideTheWindowIsHidden | internal/dataplane/handler.go:441-475 | a read concurrent with the end of the PUT, after the manifest is published and before the grant is recorded, gets 404 |
| JwksCache.ParseMaxAge | internal/clients/jwks/verifier.go:457-468 | 0 iff no part of the header asks for a positive max-age or the product wraps to it; otherwise the first positive one decides, in wrapping 64-bit nanoseconds, whatever follows it |
| JwksCache.KeysOfDocument | internal/clients/jwks/verifier.go:267-277 | a key id is known iff the document has a usable entry for it, and then with the last one's key |
| JwksCache.Verifier.Enter | internal/clients/jwks/verifier.go:195-226 | the locked section serves, refuses or takes the slot; only unknown ids are refused |
| JwksCache.Verifier.Refresh | internal/clients/jwks/verifier.go:246-291 | installs keys, time and lifetime of the document |
| JwksCache.Verifier.KeyFor | internal/clients/jwks/verifier.go:195-243 | a whole lookup: served from the cache while fresh or throttled, refused while unknown and throttled, else answered from the document installed last, with the last usable entry of its id, and not at all if its own fetch fails |
| JwksCache.KeysComeFromDocuments | internal/clients/jwks/verifier.go:226-243 | over every run, each key given is from a fetched document, and a caller that fetched gets none older than its slot |
| JwksCache.FetchDecides | internal/clients/jwks/verifier.go:226-243 | in every reachable state a caller back from its fetch gets the last document's key for its id, if it has one, and none after a failed fetch |
| JwksCache.LifetimeBounded | internal/clients/jwks/verifier.go:278-289 | in every reachable state the lifetime is positive and at most an hour |
| JwksCache.LifetimeExactUnlessOverflow | internal/clients/jwks/verifier.go:278-289 | for every header: the first positive max-age, clamped, is adopted iff the product does not wrap below the maximum; without one the lifetime stays |
| JwksCache.HugeMaxAgeWraps | internal/clients/jwks/verifier.go:457-468 | a max-age that wraps to 0.29 seconds |
| JwksCache.FetchesAreBounded | internal/clients/jwks/verifier.go:207-226 | any window of length L sees at most L / minRefresh + 1 fetches, for any callers and key ids |
| JwksCache.EveryFetchHasItsOwnSlot | internal/clients/jwks/verifier.go:207-226 | concurrent callers never share a fetch slot |
| JwksCache.KnownKeyIsNeverRefused | internal/clients/jwks/verifier.go:195-226 | without taking the slot a caller is served iff its id is cached and fresh or throttled, refused iff it is unknown and throttled |
| JwksCache.FreshMeansRecentlyFetched | internal/clients/jwks/verifier.go:195-205 | a fresh cache holds the last fetched document, fetched less than an hour ago |
| JwksCache.ExpiredKeyServedIffThrottled | internal/clients/jwks/verifier.go:207-224 | an expired known key is served iff a fetch began within the throttle window |
| JwksCache.KeyServedAtAnyAge | internal/clients/jwks/verifier.go:207-224 | while fetches fail a key is served at any age |
| Cursors.DecodeEncode | internal/apps/kacho/shared/namepage/namepage.go:82-108 | base64 decoding undoes encoding in both alphabets, for all bytes |
| Cursors.Vectors | internal/apps/kacho/shared/namepage/namepage.go:82-108 | test vectors of RFC 4648 in both alphabets |
| Cursors.AtoiItoa | internal/apps/kacho/shared/namepage/namepage.go:87-99 | the decimal form of a position reads back iff it fits 64 bits |
| Cursors.OffsetRoundTrip | internal/dataplane/handler.go:725-744 | both position cursors recover every position |
| CatalogPages.ParseCatalogPageSize | internal/dataplane/handler.go:691-700 | whatever `n` is, the page size is in [1..1000] |
| CatalogPages.CatalogPageSizes | internal/dataplane/handler.go:691-700 | a size in [1..1000] is taken as written; none, zero, negative, larger and unreadable ones mean 1000 |
| CatalogPages.WindowIsSlice | internal/dataplane/handler.go:708-721 | any cursor gives a contiguous slice of at most a page, and `more` tells exactly whether names remain |
| CatalogPages.ServeCatalog | internal/dataplane/handler.go:634-686 | with the checks done in any order, the page is the allowed part of the window in order; it fails iff some check failed |
| CatalogPages.CursorsKeepPositions | internal/dataplane/handler.go:674-679 | following links neither skips nor repeats a position and keeps the page size |
| CatalogPages.WalkListsTheRest | internal/dataplane/handler.go:634-721 | from any cursor the walk lists the allowed part of the rest |
| CatalogPages.WalkIsOneFilter | internal/dataplane/handler.go:634-721 | a whole walk equals one filter of the whole catalog |
| CatalogPages.WalkLength | internal/dataplane/handler.go:634-721 | the walk takes one request per full page and one for the rest |
| KeysetPages.PageHoldsItsRange | internal/repo/kacho/pg/registry.go:144-153 | a page holds exactly the rows after its cursor and not beyond the next one |
| KeysetPages.BeforeIsBytewise | internal/repo/kacho/pg/pagetoken.go:16-42 | names are in byte order and registries oldest first |
| KeysetPages.WalkIsIncreasing | internal/repo/kacho/pg/registry.go:82-154 | however rows change between pages no row comes twice |
| KeysetPages.WalkReturnsThePersistent | internal/repo/kacho/pg/registry.go:82-154 | however rows change, one that is there throughout is returned, and nothing unlisted is |
| KeysetPages.RegistryWalk | internal/repo/kacho/pg/pagetoken.go:16-42 | both for the (created_at, id) order |
| KeysetPages.TagWalk | internal/clients/zot/graphql.go:188-208 | both for the tag-name order |
| Listings.TokensKeepNames | internal/apps/kacho/shared/namepage/namepage.go:26-50 | the encoded tokens lead through the same pages as the names they encode |
| Listings.TagsListedOnce | internal/clients/zot/graphql.go:188-208 | following the tokens while tags come and go, no tag is listed twice and one that is there throughout is listed |
| KeysetPages.QuietWalkEnds | internal/apps/kacho/shared/namepage/namepage.go:26-50 | on an unchanging list the walk ends and lists everything |
| Listings.ValidPageSize | internal/apps/kacho/shared/namepage/namepage.go:26-30 | accepted are exactly the sizes in [0..1000]; a positive one is taken as it is, zero means 50 |
| Listings.Window | internal/apps/kacho/shared/namepage/namepage.go:26-50 | the skipping loop returns the keyset page of the token; refusals exactly for bad sizes and undecodable tokens |
| Listings.CondsMean | internal/repo/kacho/pg/registry.go:87-118 | the assembled WHERE clause holds of a row iff it is wanted and after the cursor |
| Listings.WhereIsAfter | internal/repo/kacho/pg/registry.go:119-133 | in key order the clause selects exactly what follows the cursor among the wanted rows |
| Listings.ListRegistries | internal/repo/kacho/pg/registry.go:82-154 | the query with one row of lookahead returns the keyset page |
| Listings.RegistriesListedOnce | internal/repo/kacho/pg/registry.go:82-154 | over a changing table each registry wanted throughout is listed exactly once |
| RepositoryUnion.NamespaceIsSorted | internal/clients/zot/graphql.go:66-75 | the names are sorted, distinct and exactly those found under the namespace prefix |
| RepositoryUnion.PointReads | internal/apps/kacho/api/registry/repository.go:65-97 | a durable repository shows its row's own fields and its tags, an ephemeral one is private and has none, and one without row and tags is not found |
| RepositoryUnion.RefusedPages | internal/apps/kacho/shared/namepage/namepage.go:59-99 | a page is refused iff its size is out of range or its token no position; a position past the end gives an empty last page |
| RepositoryUnion.ListRepositories | internal/apps/kacho/api/registry/registry.go:275-322 | a page is the window's tagged repositories, then on the first page the other durable ones, each as a point read returns it |
| RepositoryUnion.Enrich | internal/apps/kacho/api/registry/registry.go:293-305 | the in-place overwriting makes each row what a point read returns |
| RepositoryUnion.AppendDurable | internal/apps/kacho/api/registry/registry.go:307-320 | the rows appended are the durable ones not in the window, with their own tag counts |
| RepositoryUnion.TokensKeepPositions | internal/apps/kacho/shared/namepage/namepage.go:59-80 | offset tokens neither skip nor repeat a position |
| RepositoryUnion.ListedExactly | internal/apps/kacho/api/registry/registry.go:275-322 | how often each name is listed |
| RepositoryUnion.ListingIsTheUnion | internal/apps/kacho/api/registry/registry.go:262-322 | listed iff a point read finds it; ephemeral once and private; durable once, or twice iff tagged beyond the first window |
| OciPath.UnescapeEscape | internal/clients/zot/httpclient.go:86-92 | percent-decoding undoes encoding, and an encoded segment has no separator |
| OciPath.EscapeVectors | internal/clients/zot/httpclient.go:86-92 | separators, space and the escape character, as RFC 3986 encodes them |
| OciPath.JoinSplit | internal/clients/zot/httpclient.go:86-92 | splitting at slashes and joining is the identity |
| OciPath.ParsePath | internal/dataplane/path.go:49-97 | the loop computes the parse of the path |
| OciPath.ParseIff | internal/dataplane/path.go:49-117 | a path addresses a request iff the request is well-formed and the decoded segments spell it: name, then manifests, blobs or referrers with the reference, tags/list, or blobs/uploads with at most one session |
| OciPath.ParseGlobal | internal/dataplane/path.go:49-80 | exactly /v2 and /v2/ are the ping, and exactly the single segment _catalog is the catalog |
| OciPath.EscapeInPlace | internal/clients/zot/httpclient.go:86-92 | the in-place loop encodes every segment |
| OciPath.PrintRepoPath | internal/clients/zot/httpclient.go:86-92 | prints the encoded repository path |
| OciPath.ParsePrint | internal/clients/zot/httpclient.go:103-106 | what the client prints, the data plane parses back to the same registry, repository, route and reference |
| OciPath.ParseSession | internal/dataplane/path.go:81-90 | the path of an upload session addresses the repository it pushes to |
| OciPath.TrailingSlash | internal/dataplane/path.go:59-77 | a trailing slash changes nothing |
| OciPath.AcceptedIsWellFormed | internal/dataplane/path.go:59-117 | an accepted path has a valid registry id and non-empty segments without traversal or separators, recovered by splitting |
| OciPath.RejectedIff | internal/dataplane/path.go:59-77 | rejected iff a non-empty piece does not decode or decodes to a traversal step or a separator |
| OciPath.ParsePrintParse | internal/dataplane/path.go:49-117 | parsing the print of a parse changes nothing |
| RepositoryNames.MatchesTheGrammar | internal/domain/repository_config.go:56-62 | the matcher accepts exactly the language of the regular expression |
| RepositoryNames.NameIsPathOfNames | internal/domain/repository_config.go:56-62 | a name is exactly a path of slash-free names |
| RepositoryNames.ValidNameSplits | internal/domain/repository_config.go:64-81 | valid iff within the length limit and every segment is a name; segments are never traversal steps |
| RepositoryNames.ValidNamePrintsUnchanged | internal/clients/zot/httpclient.go:86-92 | percent-encoding leaves valid names alone |
| RepositoryNames.ValidNameIsAddressable | internal/dataplane/path.go:59-117 | every name the control plane accepts is recovered by the data plane from its plain path, by every kind of request |
| RepositoryNames.ValidNameIsUploadable | internal/dataplane/path.go:81-90 | every name the control plane accepts is recovered from the path of each of its upload sessions, with or without a trailing slash |

## Left out

- HTTP, gRPC, GraphQL and SQL plumbing, streaming, body limits, timeouts: dependencies are abstract state with nondeterministic answers.
- RSA and ECDSA verification, JWT and JSON decoding: a key document is a list of entries, a keyset cursor the pair it encodes, a Cache-Control header the list of its parts.
- The breakglass mode, configuration, startup, migrations, long-running-operation envelopes.
- Registry names and their partial unique index, registry labels and their scoping, timestamps of rows, artifact types, sizes, download counts.
- `RegistryRepo.Update`'s SET list has the same shape as the overlay's, which is the one modelled.
- The last-tag check before an unregister: its transaction is modelled, committing at any time.
- Atomicity of a rename across engine and overlay: the code does not claim it.
- A concurrent engine client during a rename: the engine changes only by the rename's own calls.
- `RemoveNamespace` in the delete worker: it changes nothing and its failure is ignored.
- Failures of dependencies while a page of the repository listing is built: they fail the page.
- Which of several failing catalog checks is reported, and checks cut short by it: any failure fails the page.
- Several data-plane replicas, each with a membership cache of its own: one cache is modelled, which may forget anything at any time.
- A mount source containing `..` is refused before anything else; only sources with and without a slash are modelled.
- Registry statistics, referrers, operations listing.
