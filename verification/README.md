# S3MP: a verified model

S3MP is a multi-tenant file store: tenants own applications, applications own API keys and
files, and files live in an object store that can fail or disappear in the middle of a call.
This project models the parts of it that are hard to get right and proves what they promise,
in Dafny 4.11. `dafny verify dfyconfig.toml` checks the whole project.

Code of the repository that changes state step by step is a class here, with methods proved
equal to a specification function of the old state; the theorems are lemmas about those
functions, over every input, every run or every interleaving. What such a function computes is
also stated outright, in the terms of its inputs: lemmas named `...ExactlyWhen` or `...Exactly`
say when each answer is given and which field changes how. A call to the object store, Redis,
the broker or the database may succeed, or raise before or after it took effect; where a process
can die in the middle, its calls may also be the last thing it does. The answers are inputs, and
a theorem is about all of them unless it says otherwise. A client of the locks that dies is one
that sends no further commands.

| file | what it models |
|---|---|
| `OperationWorker.dfy`, `ObjectStore.dfy` | the copy, move, rename and delete executor, over any number of interrupted attempts |
| `OperationCreation.dfy` | the transactions that create and settle operations: the rows they claim, the names they reserve |
| `OperationHistory.dfy` | any number of copies, moves and renames, their attempts interleaved call by call, with uploads, settlements, timeouts and replays |
| `TrashReconciliation.dfy`, `TrashRace.dfy` | the pass that moves deleted files to the trash, one record at a time, and any number of such passes at once |
| `ProviderMigration.dfy` | copiers and cleaners of a provider migration, as a step machine with any number of processes, and the executor as a path of it |
| `OperationLock.dfy` | all-or-nothing token locks in Redis, with expiry, renewal and any number of clients |
| `BrokerDelivery.dfy` | one delivery of a file operation, and the machine of outbox, queues, handlers and recovery around it |
| `RateLimiter.dfy` | the trimmed sorted set of the rate limiter |
| `ProviderTargets.dfy` | where a file lies in its bucket, by namespace, prefix and key |
| `Paths.dfy` | object keys as segment lists, delegation scopes, API-key directories |
| `Authorization.dfy` | `evaluate`, role grants and their longest expiry, the authorized file command |
| `Text.dfy`, `Json.dfy`, `JsonCanonical.dfy`, `JsonReader.dfy`, `FileReference.dfy` | UTF-8, length prefixes, canonical JSON and a reader of it, and the preimage of a file reference |
| `Base64Url.dfy`, `Base64Code.dfy`, `Cursor.dfy` | unpadded base64url and signed cursors |
| `Applications.dfy` | applications, owners, representatives and API keys over whole runs; the ownerless scan |
| `Inventory.dfy` | the comparison of recorded files with a provider's objects |
| `Calendar.dfy`, `Ingestion.dfy` | the due date of a soft deletion; the ingestion state machine |

## What the proofs show about the code

Where a promise fails on some input, the code is modelled as it is, a lemma gives the input,
and another says exactly when the promise holds.

- A move or rename left to itself keeps the bytes on every run if and only if its keys differ
  and the destination is free or equal, or its length or checksum check refuses what is there.
- Many operations together keep every file on every history of clear events: each operation
  that is created or replayed fits in, and clients write neither on its keys nor over files.
  At any point of such a history a creation is safe if and only if it is clear. The tables see
  to most of that. What they do not see:
  - `create_rename_operation` and the commit of an upload read file rows and no reservations,
    so they are admitted on the destination of a copy or move that stands, and nothing else is.
    The move's bytes are then lost with both operations succeeded, although their locks differ.
  - A settled copy or move leaves an object without a row. Unless clients write what they do
    not commit, these are all the objects the database does not know. A later move onto one,
    of equal length and other content, deletes its own source and succeeds.
  - A replayed operation does not take its claims again.
- Two concurrent copiers of one migration can replace the target after its row was promoted.
  The bytes stay; the etag stays on every history if and only if copiers run one at a time
  or copies keep the etag.
- `finalize_file_trash_migration` says nothing when the row is no longer being deleted, and its
  id is returned all the same. The one way to get there is a second pass over the same listing:
  the passes that return an id are those that finalized it, on every history, if and only if
  passes run one at a time. A single pass returns the rows it finalized, except those whose
  finalizing raised after its commit. Finalizing also frees the source key: a new file there is
  safe if and only if no pass under way still has to copy or delete the old object, or to look
  at the source and find as many bytes.
- A failed `acquire` leaves behind a `SET` that took effect and raised, and, if a call of its
  clean-up raises, the keys from that call on. Its residue is exact when no one else is on Redis,
  and nothing else stays behind whoever is.
- `release` waits for the renewal task and suppresses only its cancellation: after a renewal call
  that raised, it raises too and gives up no key.
- The renewal task ends without a word when a key is lost, and the executor goes on. Two clients
  within their leases never hold the same key; a second executor can start on it after a pause
  exactly when the pause outlasts what is left of the lease.
- `schedule_broker_retry` leaves `attempt_count` alone; `start_broker_operation` raises it. The
  retry chain ends for that reason, and the bound proved counts starts.
- Settling an operation releases its file rows and replaying it does not claim them again, while
  recovery finds operations through those rows: a replayed operation whose handler dies in work
  stays in work for good. Up to its first settlement an operation is always found. One that
  recovery gives up is dead-lettered without being settled: it keeps its files occupied.
- Requests that read the same instant share one member of the rate limiter's sorted set. The
  bound on requests holds on every clock if and only if the limit is at most one or the window
  has no width; it holds for the instants of requests on any clock, and for the requests
  themselves on a strictly increasing one.
- Delegation is checked tenant-wide at the empty key, where a denial under a prefix does not
  match: its holder can grant what it may not do under that prefix. Revoking the holder's own
  binding later does not touch what it granted.
- A role without permissions has no longest expiry, although any future expiry is accepted.
- `create_key` does not look at the application's status: a key issued while the application
  is deleted works after `restore_app`. Rotating a revoked key yields a working one, and a
  rotation that stops between its two transactions only revokes.
- The authorization version tells apart every change of an application's status and deletion
  time, and code and principal never change; a change of its name leaves the version as it is.
- `restore_app` accepts an owner whose membership has expired; the next scan contains the
  application again.
- Soft deletions keep the order of their local dates. The later of two is due earlier exactly when
  both fall in one month, on days that the third month after has as its last or does not have,
  and the later one at an earlier time of day.
- The client path of the root of a storage space cannot be told from its key: `_relative_key`
  refuses it. Every other key comes back.

## Model

| member | source | states |
|---|---|---|
| OperationWorker.FileOperationWorker.Execute | src/s3mp/files/application/operation_worker.py:147-231 | one attempt ends in the store and the outcome that the specification of the attempt gives, for every way its calls may go |
| OperationWorker.FileOperationWorker.DeleteKeys | src/s3mp/files/application/operation_worker.py:219-226 | the delete loop removes what the specification removes |
| OperationWorker.TransferAsksFirst | src/s3mp/files/application/operation_worker.py:151-168 | storage is touched only when reading, writing and, for a rename, moving are granted and both targets derived; otherwise the first that is not decides: cancelled, retry, or the end of the process |
| OperationWorker.OnlyAdmittedTransfersWork | src/s3mp/files/application/operation_worker.py:147-153 | what is not admitted, not supported or lacks a key changes nothing, with its own outcome |
| OperationWorker.SourceLeavesOnlyIfGranted | src/s3mp/files/application/operation_worker.py:209-218 | the source leaves the store only of a move or rename whose deletion was granted |
| OperationWorker.DeletionDecidesOutcome | src/s3mp/files/application/operation_worker.py:209-218 | when all else goes well, that question and the deletion decide store and status |
| OperationWorker.KeyLeavesOnlyIfGranted | src/s3mp/files/application/operation_worker.py:219-226 | a delete removes a key only when it was granted and derived for that key |
| OperationWorker.FirstObstacleDecides | src/s3mp/files/application/operation_worker.py:219-231 | the first key that is not granted, derived or deleted decides what a delete reports |
| OperationWorker.UndisturbedOutcome | src/s3mp/files/application/operation_worker.py:168-231 | exactly what an undisturbed attempt reports: nothing to copy, another length or checksum than recorded or than the source's, or success |
| OperationWorker.RunStaysOnCourse | src/s3mp/files/application/operation_worker.py:147-231 | over any number of attempts, each interrupted anywhere, the object is at source or destination, and a present destination equals it |
| OperationWorker.RunTouchesOnlyItsKeys | src/s3mp/files/application/operation_worker.py:147-231 | no run touches a key other than the two of the operation |
| OperationWorker.SuccessMeansTransferred | src/s3mp/files/application/operation_worker.py:165-231 | success means the destination holds the object, and the source is gone unless it was a copy |
| OperationWorker.RunCanAlwaysBeFinished | src/s3mp/files/application/operation_worker.py:168-176 | wherever earlier attempts stopped, one undisturbed attempt finishes; a rename does exactly when its integrity check passes |
| OperationWorker.SurvivesExactlyWhen | src/s3mp/files/application/operation_worker.py:166-218 | the bytes of a move or rename survive every run if and only if the keys differ and the destination is free or equal, or a check refuses it |
| OperationWorker.UnguardedClashLosesTheBytes | src/s3mp/files/application/operation_worker.py:168-218 | outside that condition some run loses them |
| OperationWorker.MoveOntoItselfDeletes | src/s3mp/files/application/operation_worker.py:168-218 | the executor itself does not compare the keys of a move: one with equal keys, which creation refuses, would delete its object and succeed |
| OperationWorker.DeleteRemovesAPrefix | src/s3mp/files/application/operation_worker.py:219-226 | a delete removes a leading part of its keys and nothing else, and all of them if it succeeds |
| OperationCreation.SqlAlchemyFileStore.CreateTransfer | src/s3mp/files/infrastructure/repositories.py:866-934 | rows claimed, names reserved, and the operation, its outbox event and its audit event added; or the first fault and no change |
| OperationCreation.SqlAlchemyFileStore.CreateRename | src/s3mp/files/infrastructure/repositories.py:936-1096 | source claimed, a result row added, and the operation with its events; or the first fault and no change |
| OperationCreation.SqlAlchemyFileStore.CommitFile | src/s3mp/files/infrastructure/ingestion_repository.py:516-553 | a row for the uploaded object, refused exactly when a live row has its key |
| OperationCreation.SqlAlchemyFileStore.SettleBrokerOperation | src/s3mp/files/infrastructure/repositories.py:1208-1272 | every claim and reservation of the operation is let go, and a rename's rows get the statuses of its ending |
| OperationCreation.SqlAlchemyFileStore.OccupyOperationResources | src/s3mp/files/infrastructure/repositories.py:1480-1540 | for any lists of keys: the first fault of a source in their order, then of a destination row, then of a reservation; or every source row claimed and every name reserved |
| OperationCreation.OccupiedExactly | src/s3mp/files/infrastructure/repositories.py:1480-1540 | any number of sources and destinations: created exactly when every source may be claimed and every destination is free, unreserved and named once; then exactly the rows of all sources are occupied and all destinations reserved |
| OperationCreation.OccupationFault | src/s3mp/files/infrastructure/repositories.py:1503-1518 | the first source that may not be claimed decides the fault, then rows at destinations, then reservations |
| OperationCreation.RenamedExactlyWhen | src/s3mp/files/infrastructure/repositories.py:942-1073 | when a rename is created, and every row it leaves |
| OperationCreation.UploadedExactlyWhen | src/s3mp/files/infrastructure/ingestion_repository.py:516-553 | when an upload is committed, and every row it leaves |
| OperationCreation.SettledExactly | src/s3mp/files/infrastructure/repositories.py:1216-1272 | settling lets go of exactly the operation's own claims and reservations and changes no status but those of a rename's rows |
| OperationCreation.SettledRename | src/s3mp/files/infrastructure/repositories.py:1238-1246 | the statuses of a rename's rows for each ending |
| OperationCreation.TransferIsCreatedExactlyWhen | src/s3mp/files/infrastructure/repositories.py:1480-1540 | a transfer is created if and only if its source is an available, unoccupied file and neither a row of any status nor a reservation has its destination |
| OperationCreation.CreationClaimsItsKeys | src/s3mp/files/infrastructure/repositories.py:1510-1540 | creation occupies the source, reserves the destination, and changes nothing else |
| OperationCreation.SelfTransferIsNeverCreated | src/s3mp/files/infrastructure/repositories.py:1480-1540 | no operation moves or copies a key onto itself |
| OperationCreation.SelfRenameIsNeverAdmitted | src/s3mp/files/infrastructure/repositories.py:936-1010 | a rename of a key onto itself is refused by the row of the key, besides the comparison |
| OperationCreation.SecondIsAdmittedExactlyWhen | src/s3mp/files/infrastructure/repositories.py:936-1019 | beside a standing copy or move on one of its keys: no copy or move is admitted; a rename is, exactly onto the destination from a row that may be renamed; an uploaded row is, exactly at the destination |
| OperationCreation.NothingIsAdmittedBesideRename | src/s3mp/files/infrastructure/repositories.py:1000-1073 | beside a standing rename no copy, move, rename or uploaded row is admitted on either of its keys |
| OperationCreation.TransactionsKeepOneLiveRow | src/s3mp/files/infrastructure/models.py:42-52 | every creation and upload keeps at most one live row a key |
| OperationCreation.CreatedMoveSurvivesExactlyWhen | src/s3mp/files/application/operation_worker.py:166-218 | while nobody else writes its keys, the bytes of a created move survive every run if and only if no object of equal length and other content stands at the destination |
| OperationHistory.AttemptIsAPath | src/s3mp/files/application/operation_worker.py:147-231 | an attempt of the executor, whatever its calls answer, is a history of the machine |
| OperationHistory.HappensExactlyWhen | src/s3mp/files/infrastructure/repositories.py:865-1438 | when each event of the machine can happen |
| OperationHistory.OperationsChangeExactly | src/s3mp/files/infrastructure/repositories.py:865-1438 | an operation is what it was created as; what changes its phase and what it carries |
| OperationHistory.BytesChangeExactly | src/s3mp/files/infrastructure/ingestion_repository.py:516-553 | which events but calls write objects or change the bytes a key is to hold |
| OperationHistory.FilesChangeExactly | src/s3mp/files/application/operation_worker.py:168-231 | which calls write and delete objects, and hand a file over from source to destination |
| OperationHistory.ClaimsChangeExactly | src/s3mp/files/infrastructure/repositories.py:1340-1438 | giving up leaves claims and reservations, a replay takes none again |
| OperationHistory.StepStaysSound | src/s3mp/files/application/operation_worker.py:165-218 | one call of any attempt keeps every file and every other operation on course, whatever else is under way |
| OperationHistory.ClearHistoryKeepsEveryFile | src/s3mp/files/application/operation_worker.py:147-231 | over every history of clear events, with all interleavings and faults, every key holds what it is to hold, and a reported success is true and stays so |
| OperationHistory.JoiningIsSafeExactlyWhen | src/s3mp/files/application/operation_worker.py:166-218 | whatever clear events follow, an operation that joins is safe if and only if it fits in: no object at its destination that it would take for its own, and no other operation acting on that destination with other bytes |
| OperationHistory.EventIsSafeExactlyWhen | src/s3mp/files/infrastructure/repositories.py:866-1438 | the same for each creation and each replay |
| OperationHistory.TablesKeepKeysApart | src/s3mp/files/infrastructure/repositories.py:936-1540 | among operations that hold their claims the tables keep the keys of a new one apart from all others, but for a rename onto a reserved name |
| OperationHistory.RespectfulStaysBound | src/s3mp/files/infrastructure/repositories.py:866-1272 | operations under way hold their claims through all events, if renames and uploads keep off reserved names, settlements wait for attempts and nothing is replayed |
| OperationHistory.CarefulHistoryKeepsEveryFile | src/s3mp/files/infrastructure/repositories.py:866-1272 | in such histories every file is kept if creations see to their destination and clients keep off what is not theirs |
| OperationHistory.CreationIsSafeExactlyWhen | src/s3mp/files/application/operation_worker.py:166-218 | at any point of them a creation is safe if and only if no object stands at its destination that the executor would take for its own copy |
| OperationHistory.UnknownObjectsAreCopies | src/s3mp/files/infrastructure/repositories.py:1208-1272 | over every history, an object without a row was written by a client or stands at the destination of an earlier copy or move |
| OperationHistory.UnsafeTransferIsOntoACopy | src/s3mp/files/application/operation_worker.py:166-218 | a copy or move is unsafe if and only if its destination was written by an earlier copy or move, or a client, and holds bytes of equal length and other content |
| OperationHistory.RenameOntoReservedLosesTheMove | src/s3mp/files/infrastructure/repositories.py:936-1073 | a rename onto the destination of any standing move: both succeed and the moved bytes are at neither key |
| OperationHistory.MoveOntoCopyLosesItsBytes | src/s3mp/files/infrastructure/repositories.py:1208-1272 | a move onto what a settled copy left: it succeeds and its bytes are gone |
| OperationHistory.TwoFilesAndAMove | src/s3mp/files/infrastructure/repositories.py:866-934 | the hypotheses of these results are met: two recorded files and a move, beside which the other file may be renamed |
| ObjectStore.ObjectStorage.Copy | src/s3mp/files/application/operation_worker.py:33-36 | a copy that takes effect puts the source's bytes at the destination under a fresh stamp; one that does not changes nothing |
| ObjectStore.CopiedExactlyWhen | src/s3mp/storage/infrastructure/minio.py:242-256 | when a copy is answered, raises or ends the process, and what it writes |
| TrashReconciliation.FileApplicationService.ReconcilePendingDeletions | src/s3mp/files/application/file_service.py:904-985 | one pass leaves the objects and rows, and returns the ids, that its specification gives |
| TrashReconciliation.RecordTouchesOnlyItself | src/s3mp/files/application/file_service.py:904-985 | what happens to one record changes no other row and no key but its own two |
| TrashReconciliation.RecordStaysSound | src/s3mp/files/application/file_service.py:915-985 | a record's bytes stay in source or trash through every failure; a reported one is in trash and not in source |
| TrashReconciliation.PassKeepsAllSound | src/s3mp/files/application/file_service.py:904-985 | a pass over disjoint files keeps all of them, and every id it returns is in the trash |
| TrashReconciliation.RunsKeepEveryFile | src/s3mp/files/application/file_service.py:904-985 | no pattern of failures, crashes and re-runs loses a file |
| TrashReconciliation.ReturnedIdsAreTheFinalized | src/s3mp/files/application/file_service.py:904-985 | a listed id is returned if and only if its row is finalized and finalizing did not raise after its commit; nothing else is returned |
| TrashReconciliation.StepsKeepLawful | src/s3mp/files/infrastructure/repositories.py:237-425 | through soft deletion, finalizing, failures, restore and purge in any order, a deleting row with a deletion record is soft-deleted |
| TrashReconciliation.FirstUnmetDemandDecides | src/s3mp/files/application/file_service.py:915-985 | the first of checks, calls and verification that does not go well decides how a record ends: raising is a failure of the record, a crash ends the process, and only a record that meets all is completed |
| TrashReconciliation.StatusChangesExactlyWhen | src/s3mp/files/infrastructure/repositories.py:236-600 | when a file row becomes deleting, deleted, given up or available again |
| TrashReconciliation.DeletionRecordChangesExactlyWhen | src/s3mp/files/infrastructure/repositories.py:236-863 | when a file is hidden and shown, a failure counted, and its object and trash keys replaced |
| TrashReconciliation.PurgeChangesExactlyWhen | src/s3mp/files/infrastructure/repositories.py:759-863 | every change of the purge status and its conditions |
| TrashReconciliation.FailuresAreCounted | src/s3mp/files/infrastructure/repositories.py:561-600 | over any number of failures the attempts are counted up to the limit, and the row is given up exactly there |
| TrashReconciliation.RecordIsStoreSteps | src/s3mp/files/infrastructure/repositories.py:533-600 | the rows a record leaves are the fold of the store's own transactions on that row: a recorded failure or the finalization, then perhaps a failure |
| TrashReconciliation.UndisturbedPassFinalizesAll | src/s3mp/files/application/file_service.py:904-985 | a pass without faults returns every id it was given |
| TrashRace.RaceKeepsTheFile | src/s3mp/files/application/file_service.py:904-985 | while nobody else writes its two keys, however many passes race over a deletion, interrupted anywhere, the bytes stay in source or trash, a returned id is in the trash and not in the source, and at most one pass finalized it |
| TrashRace.UploadIsSafeExactlyWhen | src/s3mp/files/application/file_service.py:959-980 | a new file at the key that finalizing freed and the deleted one in the trash are kept on all continuations if and only if no pass under way has a copy or delete of the old object before it, or would find as many bytes at the source |
| TrashRace.ReportsAreTruthfulExactlyWhen | src/s3mp/files/infrastructure/repositories.py:533-560 | every history has only passes that finalized what they return, if and only if passes run one at a time |
| TrashRace.FinalizingIsItsOwnExactlyWhen | src/s3mp/files/infrastructure/repositories.py:533-560 | the pass finalizes what it returns exactly when the row is still being deleted at that call |
| TrashRace.RecordIsAPath | src/s3mp/files/application/file_service.py:915-985 | the pass of the service, whatever its calls answer, is a history of that machine |
| ProviderMigration.ProviderMigrationExecutor.CopyVerified | src/s3mp/files/application/provider_migration_executor.py:50-90 | the state and counts it leaves, whatever fails; that state is reached on a path of the step machine, and the counts are the manifests that end verified and quarantined |
| ProviderMigration.ProviderMigrationExecutor.CleanupVerifiedSources | src/s3mp/files/application/provider_migration_executor.py:91-120 | the same for the cleaner, and the count of those it completed |
| ProviderMigration.ProviderMigrationExecutor.PromoteIngestion | src/s3mp/files/application/provider_migration_executor.py:122-144 | the row moves to the target and the manifest to verified together, or neither does |
| ProviderMigration.MigratedExactlyWhen | src/s3mp/files/application/provider_migration_executor.py:64-88 | a manifest is migrated if and only if it is executable, each call it takes goes well, length and etag at the target are the source's, and manifest and row are as reviewed |
| ProviderMigration.CopyRaisesExactlyWhen | src/s3mp/files/application/provider_migration_executor.py:64-88 | it ends in an exception if and only if a call it takes does not go well |
| ProviderMigration.CopyChangesExactly | src/s3mp/files/application/provider_migration_executor.py:64-154 | what one manifest leaves of objects, rows and states, in each case |
| ProviderMigration.CleanedExactlyWhen | src/s3mp/files/application/provider_migration_executor.py:105-119 | when a source is cleaned up, and what that leaves of objects and states |
| ProviderMigration.UndisturbedCopyCountsAll | src/s3mp/files/application/provider_migration_executor.py:50-89 | undisturbed, every manifest is taken up and counted once |
| ProviderMigration.UndisturbedCleanupRemovesAll | src/s3mp/files/application/provider_migration_executor.py:91-120 | undisturbed, the sources of exactly the manifests whose target is there are gone |
| ProviderMigration.CopyVerifiedIsAPath | src/s3mp/files/application/provider_migration_executor.py:50-89 | a call of the copier with any answers is a path of the step machine |
| ProviderMigration.CleanupIsAPath | src/s3mp/files/application/provider_migration_executor.py:91-120 | so is a call of the cleaner |
| ProviderMigration.RecordStaysReadable | src/s3mp/files/application/provider_migration_executor.py:50-154 | under every interleaving of copiers and cleaners and every crash, the row resolves to an object of the source's length, and with its etag if copiers are alone or copies keep etags |
| ProviderMigration.SourceOutlivesPromotion | src/s3mp/files/application/provider_migration_executor.py:91-154 | a source disappears only after its row was promoted to a target that is there |
| ProviderMigration.ReadableExactlyWhen | src/s3mp/files/application/provider_migration_executor.py:31-90 | the verified metadata hold at the end of every history if and only if copiers run one at a time or etags are stable |
| ProviderMigration.RaceReplacesEtag | src/s3mp/files/application/provider_migration_executor.py:50-90 | a history of two copiers that replaces the target's etag after promotion |
| OperationLock.RedisServer.Call | src/s3mp/files/infrastructure/operation_lock.py:12-23 | a call runs its script as one step among the commands of others, or raises before or after it |
| OperationLock.KeysAreInOrder | src/s3mp/files/infrastructure/operation_lock.py:35-37 | the keys are those given, in the order of their ids |
| OperationLock.FileOperationLockSet.Acquire | src/s3mp/files/infrastructure/operation_lock.py:40-55 | the commands sent, the answer, and whether renewal starts, for every way the calls go |
| OperationLock.FileOperationLockSet.Release | src/s3mp/files/infrastructure/operation_lock.py:57-63 | the exception of a broken renewal task and no command, or each key given up by its token until a call raises |
| OperationLock.FileOperationLockSet.RenewRound | src/s3mp/files/infrastructure/operation_lock.py:65-70 | one round extends key by key and ends at the first that is lost |
| OperationLock.AcquireEndsExactlyWhen | src/s3mp/files/infrastructure/operation_lock.py:40-55 | acquire succeeds if and only if every SET is granted, and raises if and only if the first that is not granted raised or a call of the clean-up does |
| OperationLock.RoundEndsExactlyWhen | src/s3mp/files/infrastructure/operation_lock.py:65-70 | a renewal round goes through, is refused or raises by its first call that is not granted |
| OperationLock.ReleaseRaisesExactlyWhen | src/s3mp/files/infrastructure/operation_lock.py:57-63 | release raises if and only if the renewal task was broken or one of its calls raises |
| OperationLock.CommandSparesOtherTokens | src/s3mp/files/infrastructure/operation_lock.py:12-23 | no command deletes, replaces or extends a live entry of another token |
| OperationLock.OwnershipLasts | src/s3mp/files/infrastructure/operation_lock.py:40-70 | an owned key stays owned through anything others do, for its lease |
| OperationLock.TakenIsOwnership | src/s3mp/files/infrastructure/operation_lock.py:40-55 | for a lease after acquire began, its holder owns every key, whatever others do |
| OperationLock.RoundIsOwnership | src/s3mp/files/infrastructure/operation_lock.py:65-70 | for a lease after a completed renewal round began, all keys are owned |
| OperationLock.TrustIsOwnership | src/s3mp/files/infrastructure/operation_lock.py:40-70 | a client within its lease owns every one of its keys, in every history of any number of clients |
| OperationLock.HoldersExcludeEachOther | src/s3mp/files/infrastructure/operation_lock.py:26-70 | two clients that both may trust their locks hold disjoint ones, in every history of any number of clients |
| OperationLock.SecondExecutorExactlyWhen | src/s3mp/files/infrastructure/operation_lock.py:40-70 | beside a client that owns a key and no longer renews, a second one is given the key after a pause if and only if the pause outlasts the lease |
| OperationLock.FailedAcquireLeavesItsResidue | src/s3mp/files/infrastructure/operation_lock.py:40-52 | among any others and whatever its calls do, a failed acquire owns nothing but its residue: a SET that took a free key and raised, and what the clean-up left from its first raising call on |
| OperationLock.FailedAcquireLeavesNothingExactlyWhen | src/s3mp/files/infrastructure/operation_lock.py:40-52 | undisturbed, it owns exactly its residue, and nothing if and only if that is empty |
| OperationLock.TimedOutSetStaysBehind | src/s3mp/files/infrastructure/operation_lock.py:42-52 | that exception happens |
| OperationLock.QuietAcquireSucceedsExactlyWhen | src/s3mp/files/infrastructure/operation_lock.py:35-55 | undisturbed, acquire succeeds if and only if the ids are pairwise different and free |
| OperationLock.ReleaseGivesUpAllExactlyWhen | src/s3mp/files/infrastructure/operation_lock.py:57-63 | undisturbed, release gives up every key if and only if no exception ended the renewal task and its own calls leave none alone |
| BrokerDelivery.RabbitMQFileOperationReceiver.Handle | src/s3mp/files/application/rabbitmq_operations.py:109-184 | what one delivery does, in order, and whether it returns, for every answer of every call |
| BrokerDelivery.SettledExactlyWhen | src/s3mp/files/application/rabbitmq_operations.py:109-184 | succeeded, cancelled and partial failure are settled exactly when the executor reported them; dead-lettered exactly for a failure, or when the operation must wait and no attempt is left |
| BrokerDelivery.ScheduledExactlyWhen | src/s3mp/files/application/rabbitmq_operations.py:109-184 | when the operation is started, and when a retry is scheduled or refused: exactly below the limit, without a lock or told to wait |
| BrokerDelivery.DisposedExactlyWhen | src/s3mp/files/application/rabbitmq_operations.py:109-184 | when the delivery is acknowledged, rejected or requeued |
| BrokerDelivery.MessagesAreAccounted | src/s3mp/files/infrastructure/repositories.py:1130-1438 | publishing one and queueing a copy make one message more, disposing of a delivery but for a requeue one less, and every other event only moves them |
| BrokerDelivery.OutboxIsAccounted | src/s3mp/files/infrastructure/repositories.py:1130-1438 | what is published was pending, what is sent again or marked was sent, and only recovery and replay add an outbox event |
| BrokerDelivery.StoreAnswersFit | src/s3mp/files/infrastructure/repositories.py:1175-1325 | what a handler hears from the store fits the status and attempts of the operation's row |
| BrokerDelivery.CopiedExactlyWhen | src/s3mp/files/application/rabbitmq_operations.py:151-184 | when a copy is queued, and in which queue; when the run returns |
| BrokerDelivery.RetryQueue | src/s3mp/files/application/rabbitmq_operations.py:229-231 | the n-th attempt waits in the n-th retry queue, counts below one in the first and later ones in the last |
| BrokerDelivery.HandlingFollows | src/s3mp/files/application/rabbitmq_operations.py:109-184 | every run of the handler is a path through the stages of the system machine |
| BrokerDelivery.RunDisposesOnce | src/s3mp/files/application/rabbitmq_operations.py:109-184 | no run disposes of its delivery twice; one that returns has done so once, last of all |
| BrokerDelivery.CrashLeavesDelivery | src/s3mp/files/application/rabbitmq_operations.py:109-184 | at every crash point an acknowledged or rejected delivery was settled, not to be run, or stands copied in a retry queue |
| BrokerDelivery.RunnableCanStart | src/s3mp/files/infrastructure/repositories.py:1130-1438 | from every reachable state, a queued or waiting operation can be started within three events: it is never forgotten |
| BrokerDelivery.WorkCanEndExactlyWhen | src/s3mp/files/infrastructure/repositories.py:1208-1438 | an operation in work can be ended or started again if and only if its file rows are claimed or a handler is at work on it |
| BrokerDelivery.ClaimsLastUntilSettled | src/s3mp/files/infrastructure/repositories.py:1130-1300 | until an operation is first settled its file rows stay claimed, so recovery finds it |
| BrokerDelivery.ReplayCanGetStuck | src/s3mp/files/infrastructure/repositories.py:1410-1438 | a history from creation, settled in part and replayed, whose handler dies: in work, unclaimed and unhandled |
| BrokerDelivery.EndedHoldsFilesExactlyWhen | src/s3mp/files/infrastructure/repositories.py:1340-1393 | on every history, an operation that has ended still holds its files if and only if it was never settled, and then recovery gave it up |
| BrokerDelivery.TimedOutHoldsItsFiles | src/s3mp/files/infrastructure/repositories.py:1364-1367 | for all limits some history ends so |
| BrokerDelivery.StartsAreBounded | src/s3mp/files/infrastructure/repositories.py:1175-1325 | an operation is started at most once per allowed attempt, recovery and replay, however often messages are doubled |
| RateLimiter.RedisRateLimiter.Allow | src/s3mp/common/redis_adapters.py:43-55 | the answer depends on the caller's history as the specification says, and other callers' sets are unchanged |
| RateLimiter.TrimmedIsHistory | src/s3mp/common/redis_adapters.py:46-54 | the trimmed set equals the full history restricted to the last window, key expiry included |
| RateLimiter.AllowedExactlyWhen | src/s3mp/common/redis_adapters.py:43-55 | a request is allowed if and only if fewer than limit instants of the last window saw one |
| RateLimiter.QuietWindowForgets | src/s3mp/common/redis_adapters.py:46-54 | after a whole window without a request everything before it is forgotten, on any clock |
| RateLimiter.GrantedIsLimited | src/s3mp/common/redis_adapters.py:31-55 | on a strictly increasing clock no half-open interval of window length holds more than limit allowed requests |
| RateLimiter.GrantedInstantsAreLimited | src/s3mp/common/redis_adapters.py:31-55 | on any clock their instants are at most limit |
| RateLimiter.SameInstantIsUnlimited | src/s3mp/common/redis_adapters.py:49-52 | requests of one instant are all allowed when the limit is two or more |
| RateLimiter.BoundHoldsExactlyWhen | src/s3mp/common/redis_adapters.py:31-55 | no window ever holds more than limit allowed requests, on every clock, if and only if the limit is at most one or the window has no width |
| RateLimiter.RequestsOneWindowApart | src/s3mp/common/redis_adapters.py:46-50 | a closed interval of window length can hold one request more |
| RateLimiter.CallersAreApart | src/s3mp/common/redis_adapters.py:40-41 | two callers share a set only if they are the same, as long as scopes hold no colon |
| Paths.InsideIsSegmentPrefix | src/s3mp/authorization/domain/evaluator.py:54-57 | comparing strings with a slash behind is comparing segment lists, on all strings |
| Paths.CanonicalExactlyWhen | src/s3mp/authorization/domain/evaluator.py:40-51 | validation accepts the empty string and the strings all of whose segments are proper, and returns them unchanged |
| Paths.ScopeMatchesExactlyWhen | src/s3mp/authorization/domain/evaluator.py:54-57 | a scope matches if and only if it is empty or its segments are a prefix of the key's |
| Paths.ContainmentIsExact | src/s3mp/authorization/domain/delegation.py:16-21 | one prefix contains another if and only if it matches every key the other matches |
| Paths.ChainComposes | src/s3mp/authorization/domain/delegation.py:44-49 | the end of any chain of accepted delegations could have been delegated by its start and covers no more |
| Paths.DelegatedExactlyWhen | src/s3mp/authorization/domain/delegation.py:44-49 | which fault a delegation meets, or none: a prefix that is not canonical, then a permission not held, then a key not covered |
| Paths.RequestIsAcceptedExactlyWhen | src/s3mp/files/application/authorized_command.py:58-73 | when a request in a key's directory is accepted, and the segments of its key |
| Paths.CommandKeyExactlyWhen | src/s3mp/files/application/authorized_command.py:58-73 | for every directory and request: accepted, not canonical, or outside the directory |
| Paths.PublicKeyExactlyWhen | src/s3mp/files/application/file_service.py:425-437 | a client of a directory sees of a key exactly what follows the directory, and no key from elsewhere |
| Paths.DirectoryRoundTrip | src/s3mp/files/application/file_service.py:425-437 | the joined key lies in the directory, the resolved check accepts it, and the client sees the path it asked for |
| Paths.DirectoriesAreApart | src/s3mp/files/application/authorized_command.py:58-73 | keys of two directories neither of which contains the other never meet |
| ProviderTargets.DerivedExactlyWhen | src/s3mp/storage/domain/policy.py:71-103 | when a provider target is derived, and the segments of its key: namespace, prefix, relative key |
| ProviderTargets.DerivationFailsExactlyWhen | src/s3mp/storage/domain/policy.py:71-103 | the first of version, bucket, key, prefix and namespace that will not do is the one named |
| ProviderTargets.RelativeKeyRoundTrip | src/s3mp/files/application/file_service.py:390-413 | the relative key of a derived key is the key it was derived from; for the root alone it is refused |
| ProviderTargets.DeriveIsInjective | src/s3mp/storage/domain/policy.py:71-103 | of one space no two relative keys share a place |
| ProviderTargets.SpacesMeetExactlyWhen | src/s3mp/storage/domain/policy.py:71-103 | two spaces can put a file at the same place if and only if they share the bucket and the root of one lies in the root of the other |
| ProviderTargets.ApplicationsAreApart | src/s3mp/applications/infrastructure/repositories.py:214-215 | files of two applications never share a place, whatever prefixes and keys they use |
| ProviderTargets.ApplicationsAreApartFromLegacy | src/s3mp/storage/domain/policy.py:93-103 | nor does a file of an application share one with a space from before namespaces |
| Authorization.EvaluateExactlyWhen | src/s3mp/authorization/domain/evaluator.py:67-102 | allowed if and only if a matching allowance and no matching denial exist |
| Authorization.DecisionExactlyWhen | src/s3mp/authorization/domain/evaluator.py:54-102 | allowed exactly when an allowance of this permission, in force, for no space or this one, with an empty prefix or one whose segments begin those of the key, exists and no such denial; and the reason says which |
| Authorization.SourcesExactlyWhen | src/s3mp/authorization/domain/evaluator.py:88-102 | which bindings the decision names as its sources |
| Authorization.OtherSpacesDoNotMatter | src/s3mp/authorization/domain/evaluator.py:78-88 | removing every binding of another space changes no decision |
| Authorization.EvaluateNamesItsSources | src/s3mp/authorization/domain/evaluator.py:88-102 | a decision names exactly the bindings that matched, or the default |
| Authorization.EvaluateJoins | src/s3mp/authorization/domain/evaluator.py:67-102 | the decision over two lists is the stronger of the two decisions, so order and repetition do not matter |
| Authorization.AuthorizationManagementService.ValidateRoleGrant | src/s3mp/authorization/application/management_service.py:204-226 | the fault raised, or none, and the security audit written |
| Authorization.AuthorizationManagementService.MaximumRoleGrantExpiry | src/s3mp/authorization/application/management_service.py:228-272 | the expiry or the fault, and the security audit written |
| Authorization.AuthorizationManagementService.RequireDelegableSubset | src/s3mp/authorization/application/management_service.py:390-418 | raises exactly when some permission is not allowed at the given space and prefix, or the prefix is not canonical, which is not audited |
| Authorization.AuthorizationManagementService.RequireExpiryBound | src/s3mp/authorization/application/management_service.py:420-455 | raises exactly when some permission has no active binding there that lasts; on a prefix that is not canonical the first permission decides which fault |
| Authorization.GrantFaultExactlyWhen | src/s3mp/authorization/application/management_service.py:204-226 | each fault of a role grant, spelled out over the bindings of the grantor |
| Authorization.AllowedExactlyWhen | src/s3mp/authorization/application/management_service.py:333-388 | when the actor is allowed a permission, over its bindings and those that come with a platform administrator |
| Authorization.RaisesOnPrefixExactlyWhen | src/s3mp/authorization/application/management_service.py:390-455 | on a prefix that is not canonical, which fault each of the two delegation checks raises |
| Authorization.LackOfAuthorityIsAudited | src/s3mp/authorization/application/management_service.py:457-468 | lack of authority is audited under the code that says which it was, and no other fault is |
| Authorization.CarriesExactlyWhen | src/s3mp/authorization/application/management_service.py:246-255 | which single bindings carry a delegation |
| Authorization.MaximumIsTheOptimum | src/s3mp/authorization/application/management_service.py:204-272 | for a role with permissions, an expiry is accepted if and only if a maximum exists and the expiry is in the future and not beyond it |
| Authorization.EmptyRoleHasNoMaximum | src/s3mp/authorization/application/management_service.py:268-272 | an empty role has no maximum while every future expiry is accepted |
| Authorization.DelegationDoesNotOutliveGrantor | src/s3mp/authorization/application/management_service.py:145-226 | whenever a granted binding is active, the bindings of the grant included a tenant-wide allowance of the same permission that is active too |
| Authorization.RevocationIsNotPassedOn | src/s3mp/authorization/application/management_service.py:279-281 | whatever of them is revoked since, the granted binding allows what it did, and the grantor is allowed exactly by what it kept |
| Authorization.GrantorIsAllowedExactlyWhen | src/s3mp/authorization/domain/evaluator.py:67-102 | whether the grantor itself is allowed there depends on its denials alone |
| Authorization.DeniedPrefixIsNotDelegated | src/s3mp/authorization/application/management_service.py:390-418 | a grantor denied under a prefix can grant what its denial forbids it there |
| Authorization.CommandIsMadeExactlyWhen | src/s3mp/files/application/authorized_command.py:45-130 | a command is made if and only if its path resolves, its space has a valid target, the key's scopes name the action, and the bindings allow it on the resolved key and do not deny it there |
| Authorization.RefusedExactlyWhen | src/s3mp/files/application/authorized_command.py:58-116 | which fault refuses a command, in order |
| Authorization.CommandStaysInItsDirectory | src/s3mp/files/application/authorized_command.py:58-88 | the provider key of an application's command lies under the namespace, the space's prefix and the key's directory |
| Authorization.DenialAboveDirectoryIsFinal | src/s3mp/files/application/authorized_command.py:58-112 | a denial above an API key's directory reaches everything the key can ask for |
| JsonCanonical.DumpsDecidesSameValue | src/s3mp/files/domain/file_reference.py:24-26 | canonical JSON texts are equal if and only if the values are, up to the order of object keys |
| JsonCanonical.ValueEndsItself | src/s3mp/files/domain/file_reference.py:24-26 | a written value can be read back from the front of any text it opens |
| JsonReader.DumpsIsReadBack | src/s3mp/files/domain/file_reference.py:24-26 | a reader of compact JSON gets the value back from its text, with keys in order at every depth, and nothing is left over |
| JsonReader.EscapedExactlyWhen | src/s3mp/files/domain/file_reference.py:24-26 | only what has to be escaped is, in its shortest form |
| Text.FrameEndsItself | src/s3mp/files/domain/file_reference.py:49-52 | a field behind its eight-byte length is read back from the front of any bytes |
| Text.BigEndianIsTheNumber | src/s3mp/files/domain/file_reference.py:50-52 | the eight bytes of a length stand for it, the first weighing most |
| Text.EncodedInShortestForm | src/s3mp/files/domain/file_reference.py:50-52 | each code point is encoded in the byte ranges of RFC 3629 |
| Text.LessExactlyWhen | src/s3mp/files/domain/file_reference.py:24-26 | keys are ordered by their first different code point |
| Text.Utf8IsInjective | src/s3mp/files/domain/file_reference.py:51 | different texts have different UTF-8 bytes |
| FileReference.PreimageDecidesSameFile | src/s3mp/files/domain/file_reference.py:29-54 | two inputs have the same preimage if and only if tenant, application, key, digest and metadata agree |
| FileReference.RefDecidesHash | src/s3mp/files/domain/file_reference.py:53-54 | references are equal if and only if the hashes are |
| FileReference.NormalizedDigestIsStable | src/s3mp/files/domain/file_reference.py:17-21 | a normalized digest is a lower-case digest and its own normal form |
| FileReference.NormalizedExactlyWhen | src/s3mp/files/domain/file_reference.py:14-21 | a checksum has a normal form if and only if it is 64 hexadecimal digits, bare or behind sha256:, between spaces |
| FileReference.PreimageIsReadBack | src/s3mp/files/domain/file_reference.py:38-52 | when there is a preimage; a reader takes its six fields from it in order, and nothing else |
| FileReference.RefIsReadBack | src/s3mp/files/domain/file_reference.py:53-54 | behind its prefix a reference is the hash in unpadded base64url |
| Base64Url.DecodeInvertsEncode | src/s3mp/common/api/cursor.py:41-50 | the lenient decoder inverts the encoder on every byte string |
| Base64Url.RepadUndoesStrip | src/s3mp/common/api/cursor.py:41-50 | stripping the padding and padding by the negated length modulo four gives the encoding back |
| Base64Code.GroupIsOneNumber | src/s3mp/files/domain/file_reference.py:53 | three bytes are one number and four symbols of the alphabet are its digits to the base 64 |
| Base64Code.OnlyValuesCount | src/s3mp/common/api/cursor.py:45-57 | the lenient decoder reads a text without padding for the symbols in it alone |
| Base64Code.DecodedExactlyWhen | src/s3mp/common/api/cursor.py:45-57 | without padding exactly whole groups decode, to the bytes they encode |
| Base64Code.NothingIsReadBehindPadding | src/s3mp/common/api/cursor.py:45-57 | padding that closes a group closes the text |
| Cursor.SignedPayloadIsRead | src/s3mp/common/api/cursor.py:43-56 | the last 32 bytes always split off the signature |
| Cursor.CursorIsBoundToItsContext | src/s3mp/common/api/cursor.py:20-72 | decode returns the position for the context of encode and refuses every other |
| Cursor.AcceptedIsSigned | src/s3mp/common/api/cursor.py:45-72 | whatever decode accepts is a payload behind its signature under the secret, and names the reader's context and the position |
| Cursor.ForgedIsRefused | src/s3mp/common/api/cursor.py:53-57 | any payload under any other 32 bytes is refused in every context |
| Cursor.OtherSecretIsRefused | src/s3mp/common/api/cursor.py:53-57 | a cursor of another secret is refused whenever the two signatures of its payload differ |
| Cursor.DecodedExactlyWhen | src/s3mp/common/api/cursor.py:45-72 | what becomes of every signed payload: read, refused, or of a kind that encode never writes |
| Applications.SqlAlchemyApplicationStore.CreateApp | src/s3mp/applications/infrastructure/repositories.py:169-302 | the new rows, or the first fault and no change |
| Applications.SqlAlchemyApplicationStore.DeleteApp | src/s3mp/applications/infrastructure/repositories.py:477-574 | the application, its principal and all its active keys change together |
| Applications.SqlAlchemyApplicationStore.RestoreApp | src/s3mp/applications/infrastructure/repositories.py:576-642 | restored with a higher version, or refused without change |
| Applications.SqlAlchemyApplicationStore.TakeoverApp | src/s3mp/applications/infrastructure/repositories.py:644-688 | a waiting application becomes active under an added owner; any other is left as it is |
| Applications.SqlAlchemyApplicationStore.BindMembership | src/s3mp/applications/infrastructure/repositories.py:339-418 | binds an active member and raises the version, or the first fault and no change; a membership is known by its principal, which the schema keeps unique |
| Applications.SqlAlchemyApplicationStore.RevokeMembershipBinding | src/s3mp/applications/infrastructure/repositories.py:420-457 | revokes the representative and raises the version |
| Applications.SqlAlchemyApplicationStore.CreateKey | src/s3mp/applications/infrastructure/repositories.py:967-1017 | adds an active key and raises the application's version, whatever its status |
| Applications.SqlAlchemyApplicationStore.RevokeKey | src/s3mp/applications/infrastructure/repositories.py:1019-1063 | revokes the key and raises the application's version |
| Applications.SqlAlchemyApplicationStore.RecomputeOwnerStateForPrincipal | src/s3mp/applications/infrastructure/repositories.py:771-841 | contains exactly the principal's ownerless applications, counts them and writes one event each |
| Applications.SqlAlchemyApplicationStore.ScanOwnerlessApplications | src/s3mp/applications/infrastructure/repositories.py:843-915 | contains exactly the ownerless applications of the tenant, counts them and writes one event each |
| Applications.ScanIsComplete | src/s3mp/applications/infrastructure/repositories.py:843-915 | afterwards every active application has an active owner, contained versions rose by one, others are unchanged, and a second scan finds nothing |
| Applications.ContainmentsExactly | src/s3mp/applications/infrastructure/repositories.py:771-915 | one containment event for each of the applications, and no other |
| Applications.StatusChangesExactlyWhen | src/s3mp/applications/infrastructure/repositories.py:477-915 | when an application becomes deleted, restored, contained or taken over, spelled out over owners and memberships |
| Applications.AppChangesExactlyWhen | src/s3mp/applications/infrastructure/repositories.py:459-642 | when its name and deletion instant change; its code and principal never do |
| Applications.VersionRisesExactlyWhen | src/s3mp/applications/infrastructure/repositories.py:339-1063 | the version rises by one with each change of status, representative, keys and roles, and with nothing else |
| Applications.KeyChangesExactlyWhen | src/s3mp/applications/infrastructure/repositories.py:527-1063 | when a key is revoked, and with which instant |
| Applications.RowsAppearExactlyWhen | src/s3mp/applications/infrastructure/repositories.py:169-302 | which rows a creation adds, and that nothing else adds any |
| Applications.PrincipalChangesExactlyWhen | src/s3mp/applications/infrastructure/repositories.py:477-642 | when the principal of an application is enabled and disabled |
| Applications.PeopleChangeExactlyWhen | src/s3mp/applications/infrastructure/repositories.py:339-457 | when representatives and owners change; no owner row is ever taken away |
| Applications.RefusedExactlyWhen | src/s3mp/applications/infrastructure/repositories.py:169-1063 | for every operation, each fault it is refused with and when |
| Applications.RestoredIsOwnerlessExactlyWhen | src/s3mp/applications/infrastructure/repositories.py:590-606 | when a restored application is ownerless at once |
| Applications.TakeoverEndsContainment | src/s3mp/applications/infrastructure/repositories.py:644-688 | a takeover leaves the application active under the added owner, and not ownerless while that owner is active |
| Applications.RunKeepsConsistent | src/s3mp/applications/infrastructure/repositories.py:477-688 | after any run of operations on applications and of tenant deletion, a principal is enabled if and only if its application is not deleted, and deleted_at is set if and only if it is; principals and codes stay distinct |
| Applications.VersionTellsChange | src/s3mp/applications/infrastructure/repositories.py:339-1063 | over any run versions never fall, code and principal never change, and two states of an application with the same version differ in nothing but the name |
| Applications.NameEscapesVersion | src/s3mp/applications/infrastructure/repositories.py:459-475 | an update changes the name and nothing else, the version neither |
| Applications.SqlAlchemyApplicationStore.UpdateApp | src/s3mp/applications/infrastructure/repositories.py:459-475 | renames an application that is not deleted, or changes nothing |
| Applications.RevokedNeverAuthenticates | src/s3mp/applications/application/application_service.py:527-547 | a revoked key is not authenticated after any run, with any credential |
| Applications.DeletionRevokesForGood | src/s3mp/applications/infrastructure/repositories.py:527-534 | deleting an application revokes its keys for good, restored or not |
| Applications.OnlyActiveApplicationsAuthenticate | src/s3mp/applications/application/application_service.py:527-547 | a key that authenticates is unrevoked, unexpired and of an active application |
| Applications.AuthenticatesExactlyWhen | src/s3mp/applications/application/application_service.py:527-551 | after any run, a key authenticates exactly the credentials of its id and an ASCII secret with the digest it was issued with, while it is neither revoked nor expired and its application is active |
| Applications.WrongSecretIsRefused | src/s3mp/applications/application/application_service.py:532-533 | a secret of another digest is refused after every run |
| Applications.DeniedExactlyWhen | src/s3mp/applications/application/application_service.py:527-551 | why a credential that names a key is refused: the wrong key or secret, a key not usable, an application not active |
| Applications.MalformedExactlyWhen | src/s3mp/applications/domain/credentials.py:47-54 | what counts as malformed |
| Applications.KeyIssuedWhileDeletedWorks | src/s3mp/applications/infrastructure/repositories.py:967-1017 | a key issued to a deleted application authenticates once it is restored |
| Applications.ApiKeyService.Issue | src/s3mp/applications/application/application_service.py:434-468 | creates the key for an owner or a caller with the permission, in a canonical directory; any other call changes nothing, and a denied one is audited |
| Applications.ApiKeyService.Rotate | src/s3mp/applications/application/application_service.py:470-505 | for a caller that may manage it, revokes the old key, then creates one with the same application, scopes and directory, or stops in between |
| Applications.ApiKeyService.Revoke | src/s3mp/applications/application/application_service.py:507-527 | revokes a key of an active application for a caller that may manage it |
| Applications.ManagedExactlyWhen | src/s3mp/applications/application/application_service.py:470-527 | keys of active applications are managed by owners that stand and by callers with both permissions |
| Applications.IssuedExactlyWhen | src/s3mp/applications/application/application_service.py:434-468 | keys are issued by owners that stand and by callers with the permission, in no directory or a canonical one |
| Applications.RotationReplacesAtOnce | src/s3mp/applications/application/application_service.py:470-505 | the new key works and the old one never does again, whatever overlap was asked for |
| Applications.InterruptedRotationOnlyRevokes | src/s3mp/applications/application/application_service.py:470-505 | a rotation that stops between its transactions revokes the old key for good and changes no other |
| Applications.CredentialRoundTrip | src/s3mp/applications/domain/credentials.py:32-54 | an issued credential is parsed back into its key id and secret |
| Applications.ParsedExactlyWhen | src/s3mp/applications/domain/credentials.py:47-54 | a credential is parsed into key id and secret exactly when it is the scheme, the id without a dot, a dot and the secret, neither empty |
| Inventory.CompareInventory | src/s3mp/governance/application/quota_reconciliation.py:42-100 | the results, in order, are those of the two loops' specification |
| Inventory.KeyGetsItsVerdicts | src/s3mp/governance/application/quota_reconciliation.py:42-100 | the results on a key depend on its rows and object alone; a singly mapped active key gets exactly one |
| Inventory.FileVerdictsExactlyWhen | src/s3mp/governance/application/quota_reconciliation.py:56-88 | which results are matched, of another size, or missing at the provider, in terms of the files and objects themselves |
| Inventory.DuplicateExactlyWhen | src/s3mp/governance/application/quota_reconciliation.py:56-59 | a duplicate mapping is reported exactly for keys of several files |
| Inventory.ObjectVerdictsExactlyWhen | src/s3mp/governance/application/quota_reconciliation.py:89-100 | which objects are missing in the database and which are orphans |
| Inventory.OrderIsNothing | src/s3mp/governance/application/quota_reconciliation.py:42-100 | permuting files or objects only permutes the results |
| Inventory.ObservedBytesAreConserved | src/s3mp/governance/application/quota_reconciliation.py:56-100 | observed bytes sum to the bytes of all objects whose key is not held by a single inactive row |
| Inventory.RecordedBytesAreConserved | src/s3mp/governance/application/quota_reconciliation.py:56-88 | recorded bytes sum to those of the singly mapped active rows |
| Calendar.DueInWholeDays | src/s3mp/files/application/file_service.py:29-35 | the due date is valid, at the same local clock, 89 to 92 whole days later |
| Calendar.MonthsAlternate | src/s3mp/files/application/file_service.py:29-35 | the months of the model alternate between 31 and 30 days but for February, which has 28 or 29 |
| Calendar.DueFailsExactlyWhen | src/s3mp/files/application/file_service.py:29-35 | it fails if and only if the local date is 1 October 9999 or later |
| Calendar.DueDatesKeepOrder | src/s3mp/files/application/file_service.py:29-35 | local dates keep their order |
| Calendar.DueOrderIsLostExactlyWhen | src/s3mp/files/application/file_service.py:29-35 | a later deletion is due earlier if and only if both fall in one month, on days at least the length of the third month after, and it at an earlier local clock |
| Calendar.EndOfNovemberLosesOrder | src/s3mp/files/application/file_service.py:29-35 | instants for which it is |
| Ingestion.RunsAreBounded | src/s3mp/files/domain/ingestion.py:38-72 | a run from the start with k reconciliations has at most 5 + 3k transitions |
| Ingestion.BoundIsReached | src/s3mp/files/domain/ingestion.py:38-72 | for every k some run reaches the bound |
| Ingestion.CommittedAtExactlyWhen | src/s3mp/files/domain/ingestion.py:75-107 | committed_at is set if and only if the run passed committed, so committed and available records carry it |
| Ingestion.LastCommitIsKept | src/s3mp/files/domain/ingestion.py:75-107 | committed_at is the instant of the last commit |
| Ingestion.ReachedFromExactlyWhen | src/s3mp/files/domain/ingestion.py:38-70 | the table of transitions read backwards: what each status can be reached from |
| Ingestion.RefusedAtTheFirstNotAllowed | src/s3mp/files/domain/ingestion.py:75-107 | a run goes through while each transition is allowed from where the last one led, and names the first that is not |

## Left out

- The routers, middleware, settings, logging, OpenAPI documentation and the metadata catalog: plumbing and finite tables.
- SQL: tables are maps and sequences, each `begin()` block is one atomic step, and a raising block changes nothing unless the model says it raised after its commit.
- The upload paths of the file service: long, with mostly single-branch checks.
- Floats, and surrogates outside pairs, in JSON: metadata are built from objects, arrays, strings, integers, booleans and null; reading JSON is modelled on what the codec itself wrote, and a signed payload of another kind is one error.
- SHA-256 and HMAC: function parameters, with a fixed output length where it matters; nothing is claimed about collisions.
- The inside of authorization and provider-target derivation while an operation is executed: every check is an answer that may be yes, no or an exception, and a key maps to one target.
- The clock is read once per call: where the code reads it several times within one call, the model takes one instant.
- The dead-letter receiver: it writes an audit event and acknowledges; replaying an operation is part of the machine.
- Broker limits such as a delivery limit of a quorum queue: not declared by the code.
- The quotas that suspending, removing and restoring a tenant set, and role administration outside granting; the tenant's own status and what its removal does to applications and keys are modelled.
- A `delete` operation's creation takes its keys as a sorted set; the worker's model takes the list of keys it is given.
- Soft deletion, restore and `delete` operations in the histories of operations: they take files away on purpose, and have models of their own.
- Applications.SqlAlchemyApplicationStore.CreateApp: does not model the storage space and connection it creates; whether they are ready is a parameter.
- Applications.SqlAlchemyApplicationStore.DeleteApp: does not model the quotas, upload sessions and pending operations it also changes, which are tables of other components.
- Applications.SqlAlchemyApplicationStore.RestoreApp: does not model the quotas it reactivates.
- Authorization.CommandIsMadeExactlyWhen: does not model the evidence and the fingerprint of the command.
- RateLimiter.RedisRateLimiter.Allow: takes instants as real numbers, so two different instants are two members of the set.
- Inventory.CompareInventory: leaves out the tenant, application and space of a file, which the comparison does not read.
