# Verified model of the keen-pbr control plane

keen-pbr routes traffic on Keenetic routers and is driven by an HTTP API. This project models the
parts of that API and of its build tools whose correctness rests on state, loops or protocols, and
proves what they promise for every input and every run:

- **Connection history.** A kernel connection table of any size is streamed into a bounded map that is
  trimmed in batches. The batched form gives exactly what merging everything and trimming once gives
  (`newest`, `connection_history`, `snapshot_merge`, `connection_table`), its records say when a
  connection was first and last seen (`connection_records`), and clients page over frozen lists of it
  (`connection_pages`, `cursor_lifetime`).
- **Authentication runtime.** A sliding-window budget in a bounded deque (`windows`,
  `forward_budget`) and a per-source limiter with outstanding permits (`login_limiter`,
  `login_windows`, `login_admission`, `login_objects`). Pure step functions carry the theorems over all
  runs; the classes are proved to take those steps.
- **Durable config commit.** A write-ahead protocol as a step relation with a fault after every step
  (`config_commit`), and which ends each of its states can reach (`config_outcomes`).
- **Backup restore.** One unforgeable lease that is handed off and taken back (`lease_guard`), and the
  compensating transaction it guards, against an environment that answers anything
  (`backup_restore`).
- **Catalogue overlay.** A JSON transformation with a closure loop (`catalog_presets`,
  `catalog_covers`, `catalog_overlay`, `catalog_domains`).
- **Smaller cores.** Search, natural ordering and paging (`search_text`, `natural_order`,
  `list_query`), the native inventory and its check (`wireguard_identity`, `native_projection`,
  `native_inventory`), the DNS probe after sections 4.1.1 to 4.1.4 of RFC 1035 (`dns_reply`), the
  device inventory (`device_inventory`) and the awk masking lexer (`awk_mask`, `awk_programs`,
  `awk_mask_loops`).

`basics`, `text`, `ordered_keys` and `distinct_values` hold what several of them share. `dafny verify
dfyconfig.toml` checks everything.

## How the model is made

- Times are integers, counters and sizes are unbounded, byte strings are `string` with characters
  standing for bytes.
- Answers from outside (the runtime owner, services, file systems, admission) are nondeterministic
  within their stated contract, or parameters of the operation. The `World` of a restore holds all of
  them, so its outcome is an if-and-only-if over them.
- JSON is a datatype. Keys the overlay names are constructors of `Key`; all others are `Other`.
- Every enumeration of the native inventory has a value the panel does not know, because the source
  rejects such values.
- Where a property does not hold in general, the exact condition is proved next to a concrete case
  that breaks it: `ForwardBudget.ReconfigureAgreesExactlyWhen` with `LongerWindowForgets` and
  `AgreementEndsAtTheNextRecord`, `AwkPrograms.ShellTextStaysExactlyWhen` with
  `QuotedAwkHidesShellText`, `ConfigCommit.ForeignWriteIsLostExactlyWhen` (for exits
  `ExitLosesForeignWriteExactlyWhen`, for crashes `CrashLosesForeignWriteExactlyWhen`) with
  `ForeignWriteCanBeLost`, `ConnectionRecords.FirstSeenStaysExactlyWhen` with
  `KnownConnectionIsForgotten`, `NativeProjection.ProjectionIsAcceptedExactlyWhen` with
  `ManyTombstonesAreRefused`.
- build_scripts/mask_awk_for_shell_scan.py:4-8 promises that all shell text around a program stays
  visible, and src/api/handler_config.cpp:787-791 wants no older snapshot over a concurrent winner. The
  code keeps neither promise in all cases; the lemmas above say exactly when it does. A run that needs
  recovery, or crashes, can lose the winner as well.
- The comment at src/api/auth_runtime.cpp:417-419 speaks of a policy that became stricter, where
  trimming only delays the refill. The code takes any policy; a longer window can hand budget back,
  as `LongerWindowForgets` shows.
- src/api/handler_ndms_names.cpp:673 admits 94 retained deletions, while
  src/keenetic/ndms_wireguard_identity.cpp:11-19 manages 127 slots and
  src/keenetic/ndms_native_inventory_projection.cpp:12 reads 128 records. The model follows the code.
- A clock reading never lies before the clock's own epoch (`LoginAdmission`), and the time of a snapshot
  is not zero, which the source keeps for records without a time (`ConnectionRecords`).

## Model

| member | source | states |
|---|---|---|
| `NewestStamps.NewestIsUnique` | src/api/handler_connections.cpp:183-207 | rows are ordered by last seen time and then key, so there is only one set of the k newest rows |
| `NewestStamps.NewestOfSubset` | src/api/handler_connections.cpp:183-207 | a table that still holds the k newest rows of a larger one has the same k newest rows |
| `NewestStamps.NewestAfterInsert` | src/api/handler_connections.cpp:183-207 | when a row arrives, the newest rows under a limit that did not grow come from the old newest rows and the new one |
| `NewestStamps.Oldest` | src/api/handler_connections.cpp:183-207 | finds the row that is older than every other one |
| `ConnectionHistory.TrimmedIsBounded` | src/api/handler_connections.cpp:183-207 | one trim leaves at most 1500 rows: the active ones up to their limit, and at least 300 closed ones if there are that many |
| `ConnectionHistory.ErasureIsTrim` | src/api/handler_connections.cpp:183-207 | erasing the oldest active rows and then the oldest closed rows gives the two top sets that define a trim, with 300 places reserved for closed rows |
| `ConnectionHistory.SufficientTrimsSame` | src/api/handler_connections.cpp:183-207 | a table that kept enough of a larger one trims to exactly the same table |
| `ConnectionHistory.SufficientAfterTrim` | src/api/handler_connections.cpp:183-207 | trimming early keeps enough: the active limit only shrinks as closed rows arrive |
| `ConnectionHistory.SufficientAfterInsert` | src/api/handler_connections.cpp:183-207 | a further row keeps enough, active or closed |
| `ConnectionHistory.BatchedAfterTrim` | src/api/handler_connections.cpp:183-207 | the truncation flag accumulated over batches says exactly whether an observed row is missing |
| `ConnectionHistory.TrimmingEarlyIsHarmless` | src/api/handler_connections.cpp:183-207 | trim(trim(s) + x) = trim(s + x) for all tables with disjoint keys: any number of early trims gives what one late trim gives |
| `SnapshotMerge.ObservedKeys` | src/api/handler_connections.cpp:209-293 | the observed part of a merge has exactly the keys of the snapshot, every row marked observed |
| `SnapshotMerge.MergedSplits` | src/api/handler_connections.cpp:209-293 | with distinct keys the whole merge is the observed rows and the closed rows of keys not seen |
| `ConnectionTable.HistoryTable.EraseOldest` | src/api/handler_connections.cpp:183-207 | leaves exactly the newest rows of a class and reports whether an observed one went |
| `ConnectionTable.HistoryTable.Trim` | src/api/handler_connections.cpp:183-207 | the in-place trim equals the specification and reports exactly whether it omitted an observed row |
| `ConnectionTable.HistoryTable.TrimBatch` | src/api/handler_connections.cpp:209-293 | trims only at 1564 entries |
| `ConnectionTable.HistoryTable.Insert` | src/api/handler_connections.cpp:209-293 | one streamed row: never more than 1564 entries, and enough is kept for the final answer |
| `ConnectionTable.HistoryTable.ObserveRow` | src/api/handler_connections.cpp:209-293 | one turn of the streaming loop keeps the loop's invariant |
| `ConnectionTable.HistoryTable.ObserveRows` | src/api/handler_connections.cpp:209-293 | the streaming loop over any number of rows, repeated keys included |
| `ConnectionTable.HistoryTable.MergeUnseen` | src/api/handler_connections.cpp:209-293 | the rows of the previous snapshot that were not seen come back closed, in any order, with the same result |
| `ConnectionTable.FinishedMerge` | src/api/handler_connections.cpp:209-293 | streaming, rejoining and the last trim together give one trim of the whole merge |
| `ConnectionTable.HistoryTable.MergeSnapshot` | src/api/handler_connections.cpp:209-293 | both loops and the last trim, for every stream and every previous history |
| `ConnectionTable.FlagTellsTheTruth` | src/api/handler_connections.cpp:209-293 | for every stream, repeated keys included, a set flag means that a seen key is missing at the end: early trims need more keys than the table can hold, and an omitted row never returns |
| `ConnectionTable.HistoryTable.Update` | src/api/handler_connections.cpp:209-293 | for every stream, repeated keys included: the result is one trim of what streaming left and the rows that were not seen, `truncated` is set exactly when a seen key is missing, there are at most 1500 rows (1564 on the way), no seen key survives as an unobserved row, and first seen <= last seen <= timestamp is kept; if no key is repeated, or fewer than 1564 keys occur, it is one trim of everything merged |
| `ConnectionRecords.StreamedTells` | src/api/handler_connections.cpp:239-285 | for every stream the record of a key shows the fields of its last row, the route of its masked mark or direct, and continues the times of the earlier record unless the table was made to forget it |
| `ConnectionRecords.EveryRecordTells` | src/api/handler_connections.cpp:209-293 | the same after the whole update; a row that was not seen is shown closed with everything else kept |
| `ConnectionRecords.FirstSeenStaysExactlyWhen` | src/api/handler_connections.cpp:267-272 | a known connection keeps its first time if and only if no row of it came after the batch trim had dropped an earlier one of the same snapshot, or nothing shows |
| `ConnectionRecords.NotForgotten` | src/api/handler_connections.cpp:228-236 | that never happens to a key that is not repeated, nor with fewer than 1564 keys |
| `ConnectionRecords.KnownConnectionIsForgotten` | src/api/handler_connections.cpp:228-285 | a stream in which a known connection is trimmed, comes again in TIME_WAIT and is shown as new |
| `ConnectionRecords.FirstSeenOverRuns` | src/api/handler_connections.cpp:209-293 | over every sequence of updates in which a key stays and is not forgotten, its first time is that of the snapshot it came with |
| `ConnectionRecords.LastSeenOverRuns` | src/api/handler_connections.cpp:209-293 | and its last time that of the last snapshot that held it in an active state, or else of the first |
| `ConnectionRecords.ShownOverRuns` | src/api/handler_connections.cpp:209-293 | and it is shown with the fields of the last row that was read of it, closed when a later snapshot could be read without it |
| `ConnectionRecords.KeyIsTheTuple` | src/api/handler_connections.cpp:266-266 | two rows have the same key exactly when protocol, addresses and ports agree |
| `ConnectionHistory.TrimKeepsTheLatest` | src/api/handler_connections.cpp:183-207 | a row that goes was last seen no later than any row of its class that stays |
| `ConnectionTable.SmallGrows` | src/api/handler_connections.cpp:267-282 | without a trim in between, a repeated row continues its own earlier record |
| `ConnectionPages.CursorRoundTrip` | src/api/handler_connections.cpp:384-411 | decoding an encoded cursor gives back id and offset for every id without a bar |
| `ConnectionPages.PresentMembers` | src/api/handler_connections.cpp:428-435 | a page shows nothing but ids of its range that are in the history, and all of those |
| `ConnectionPages.PresentSplits` | src/api/handler_connections.cpp:428-435 | filtering goes id by id, so order and repetitions are those of the list |
| `ConnectionPages.FollowingCoversTheSnapshot` | src/api/handler_connections.cpp:413-440 | following cursors with any limits from 1 to 250 ends; the pages received show consecutive ranges from the offset to the end of the frozen list, each filtered by the history it was served from |
| `ConnectionPages.NothingGoneNothingMissing` | src/api/handler_connections.cpp:413-440 | if no id leaves the history meanwhile, the items received put together are the frozen list: every id once, in order |
| `ConnectionPages.CursorsFit` | src/api/handler_connections.cpp:361-361 | every cursor given out is short enough to be accepted again |
| `ConnectionPages.SnapshotIdsDiffer` | src/api/handler_connections.cpp:482-484 | snapshot ids of different counters differ, whatever the times |
| `ConnectionPages.NewIdIsFresh` | src/api/handler_connections.cpp:482-484 | a new snapshot id is none of the ids issued before |
| `ConnectionPages.ClientReceivesTheFrozenList` | src/api/handler_connections.cpp:351-499 | a client that follows its cursors while any others call in between: each page shows the next range of the list frozen at its first call, at most one call per id is needed, a call is refused only with 409, only as its last and only when the snapshot is gone; with no id gone from the history and no cursor left it has received the frozen list, every id once and in order |
| `ConnectionPages.CursorsOfAStoredSnapshot` | src/api/handler_connections.cpp:442-499 | the cursor of a first page is accepted and decodes to the snapshot that was stored with it; first and later pages together are the frozen list when nothing leaves the history |
| `ConnectionPages.StoredSnapshotsAreFrozen` | src/api/handler_connections.cpp:442-499 | in every interleaving of any clients' calls a stored snapshot never changes, and one that is gone never comes back |
| `ConnectionPages.LaterPagesAreOfTheFrozenList` | src/api/handler_connections.cpp:442-499 | whatever other clients do in between, a later cursor of a first page is answered from the list frozen then, or with 409 once the snapshot is gone |
| `ConnectionPages.QueryStore.Purge` | src/api/handler_connections.cpp:372-382 | drops exactly the expired snapshots |
| `ConnectionPages.QueryStore.EvictOldest` | src/api/handler_connections.cpp:485-495 | makes room below eight snapshots by dropping only the oldest |
| `ConnectionPages.QueryStore.Query` | src/api/handler_connections.cpp:351-499 | texts over their length or limits outside 1 to 250 are a 400 and change nothing; a first page stores its snapshot exactly when it carries a cursor; an unreadable cursor is a 400, one of an unknown snapshot a 409 |
| `CursorLifetime.RoomSparesExactlyWhen` | src/api/handler_connections.cpp:485-495 | making room spares a snapshot exactly when at most six are newer |
| `CursorLifetime.StoredExactlyWhen` | src/api/handler_connections.cpp:372-499 | in every run of any clients' calls a stored snapshot is there exactly as long as every call spared it: less than a minute old, and at most six newer ones whenever another is stored |
| `CursorLifetime.CursorWorksForAMinute` | src/api/handler_connections.cpp:372-499 | for a minute, and until eight more snapshots are stored, the cursor of a first page is answered |
| `Windows.SpacedMeansFew` | src/api/auth_runtime.cpp:359-383 | if failures n apart in the log are at least a window apart in time, no half-open window holds more than n |
| `ForwardBudget.StepKeepsInvariant` | src/api/auth_runtime.cpp:336-424 | every step of a permit-only run keeps the deque a suffix of the log whose missing part is a window old |
| `ForwardBudget.NoWindowExceedsCapacity` | src/api/auth_runtime.cpp:336-383 | in every permit-only run no half-open interval of one window holds more than `capacity` recorded failures, even when admission times are stale |
| `ForwardBudget.FirmwareThresholdIsNeverReached` | src/api/auth_runtime.cpp:336-383 | with the capacity derived from a firmware threshold of at least 1, no window reaches the threshold |
| `ForwardBudget.SomeWindowReachesCapacity` | src/api/auth_runtime.cpp:336-383 | the bound is exact: some permit-only run fills a window up to the capacity |
| `ForwardBudget.OneMorePlaceReachesTheThreshold` | src/api/auth_runtime.cpp:336-383 | with one more place than the firmware's threshold allows, a run reaches it |
| `ForwardBudget.DecisionMatchesLog` | src/api/auth_runtime.cpp:359-424 | the bounded deque answers as the unbounded log does: fewer than `capacity` failures younger than the window |
| `ForwardBudget.EveryDecisionMatchesLog` | src/api/auth_runtime.cpp:359-424 | the same after every monotone run, over-capacity records and tightening included |
| `ForwardBudget.ReconfigureAgreesExactlyWhen` | src/api/auth_runtime.cpp:412-424 | after any policy change deque and log agree in every monotone continuation, further records and tightenings included, if and only if the capacity is zero, or the kept failures fill it, or no failure missing from the deque is young under the new window |
| `ForwardBudget.MissingFailureShows` | src/api/auth_runtime.cpp:368-424 | otherwise recording until one place is left makes the deque admit what the log refuses |
| `ForwardBudget.AgreementEndsAtTheNextRecord` | src/api/auth_runtime.cpp:412-424 | a policy change after which deque and log agree at once and not after the next record |
| `ForwardBudget.LongerWindowForgets` | src/api/auth_runtime.cpp:412-424 | a concrete run in which a longer window hands budget back |
| `ForwardBudget.AuthForwardBudget.Prune` | src/api/auth_runtime.cpp:359-366 | the in-place prune equals its specification |
| `ForwardBudget.AuthForwardBudget.DropOldest` | src/api/auth_runtime.cpp:368-375 | the deque keeps the newest `max(capacity, 1)` failures |
| `ForwardBudget.AuthForwardBudget.RecordLocked` | src/api/auth_runtime.cpp:368-375 | recording under the lock is the record step |
| `ForwardBudget.AuthForwardBudget.ReserveForward` | src/api/auth_runtime.cpp:377-383 | takes the reserve step; a permit is returned exactly when the budget admits |
| `ForwardBudget.AuthForwardBudget.MayForward` | src/api/auth_runtime.cpp:385-389 | takes the observe step and answers as the budget admits |
| `ForwardBudget.AuthForwardBudget.RecordForwardedFailure` | src/api/auth_runtime.cpp:391-399 | takes the legacy record step, also over capacity |
| `ForwardBudget.AuthForwardBudget.Reconfigure` | src/api/auth_runtime.cpp:412-424 | takes the reconfigure step |
| `ForwardBudget.Permit.RecordForwardedFailure` | src/api/auth_runtime.cpp:351-357 | a permit records at most once |
| `ForwardBudget.Permit.Move` | src/api/auth_runtime.hpp:155-155 | moving any permit hands over its lock, if it has one, and whether a failure was recorded; the moved-from permit can no longer record |
| `ForwardBudget.Permit.Destroy` | src/api/auth_runtime.hpp:144-212 | destroying the permit releases the lock and nothing else |
| `LoginLimiter.StepAccounts` | src/api/auth_runtime.cpp:171-334 | every step, legacy calls and any clock included, keeps reservations equal to the live permits of each source and the table within its bound |
| `LoginLimiter.EveryRunAccounts` | src/api/auth_runtime.cpp:171-334 | the same over every run from the empty limiter |
| `LoginWindows.StepWithin` | src/api/auth_runtime.cpp:171-223 | in permit-only use failures plus reservations never exceed the limit |
| `LoginWindows.RunWithin` | src/api/auth_runtime.cpp:171-334 | the same over every permit-only run |
| `LoginWindows.LockedMeansRefused` | src/api/auth_runtime.cpp:185-223 | a locked source is refused at every attempt before the lockout ends, whatever else happens |
| `LoginWindows.LimitLocksTheSource` | src/api/auth_runtime.cpp:294-327 | reaching the limit leaves no outstanding permit and locks the source |
| `LoginWindows.StepLinks` | src/api/auth_runtime.cpp:171-334 | window resets, stale removal and neutral erasure never start a counting epoch with failures less than a window after another |
| `LoginWindows.EpochsSpaceFailures` | src/api/auth_runtime.cpp:294-327 | 2n + 1 failures touch three epochs and so span more than a window |
| `LoginWindows.FailuresPerWindow` | src/api/auth_runtime.cpp:171-327 | with a monotone clock no half-open window holds more than twice `max_failures` failures of a source since its last success |
| `LoginAdmission.GrantedExactlyWhen` | src/api/auth_runtime.cpp:185-223 | over every permit-only run with a monotone clock an attempt gets a permit if and only if the source is known or the table takes newcomers, no lockout is running, and the live permits and the failures of the running epoch are fewer than the limit |
| `LoginAdmission.SuccessClearsTheSource` | src/api/auth_runtime.cpp:294-334 | after a success with no other permit out, the next attempt is granted exactly when the table takes newcomers |
| `LoginAdmission.QuietEmptiesTheTable` | src/api/auth_runtime.cpp:171-183 | without permits out, a window and a lockout after the last event every source is forgotten and every attempt is granted |
| `LoginAdmission.SaturationIsOver` | src/api/auth_runtime.cpp:191-198 | a lockout after the last event newcomers are refused only when the table is full |
| `LoginAdmission.RefusalSaturates` | src/api/auth_runtime.cpp:191-198 | a refused newcomer closes the table to newcomers for a lockout |
| `LoginAdmission.FirstAttemptIsGranted` | src/api/auth_runtime.cpp:185-223 | the first attempt of any source on a new limiter is granted |
| `LoginObjects.AuthLoginRateLimiter.RemoveStale` | src/api/auth_runtime.cpp:171-183 | drops exactly the stale entries |
| `LoginObjects.AuthLoginRateLimiter.ReserveAttempt` | src/api/auth_runtime.cpp:185-223 | takes the reserve step; a permit object is made exactly when the step grants one |
| `LoginObjects.AuthLoginRateLimiter.FinishAttempt` | src/api/auth_runtime.cpp:294-327 | takes the finish step of the permit's verdict |
| `LoginObjects.AuthLoginRateLimiter.TrackedSourceCount` | src/api/auth_runtime.cpp:329-334 | counts the sources left after the purge |
| `LoginObjects.Permit.Settle` | src/api/auth_runtime.cpp:103-130 | a permit reports one verdict; later calls do nothing |
| `LoginObjects.Permit.Destroy` | src/api/auth_runtime.cpp:97-101 | an unsettled permit counts as a failure |
| `LoginObjects.Permit.Move` | src/api/auth_runtime.cpp:82-84 | moving transfers the obligation to exactly one permit; a settled or moved-from permit moves without one |
| `ConfigCommit.StepKeeps` | src/api/handler_config.cpp:640-1171 | every step, failing ones included, keeps the invariant and brings the run closer to its end |
| `ConfigCommit.EveryStateIsSound` | src/api/handler_config.cpp:640-1171 | the invariant holds in every state of every run, faults after any step included |
| `ConfigCommit.JournalCoversChanges` | src/api/handler_config.cpp:640-1171 | whenever this request's bytes differ from the snapshot and the commit point was not passed, the active journal holds that exact snapshot |
| `ConfigCommit.ExitsAreClassified` | src/api/handler_config.cpp:640-1171 | every exit, with and without a typed runtime owner, is a full commit, an ordinary error with exact old bytes and runtime and no active journal (or an untouched conflict), or recovery required after a decision about stopping the runtime |
| `ConfigCommit.PhaseStays` | src/api/handler_config.cpp:879-1171 | once the report was acted on, a run commits, undoes or stops, and never changes sides |
| `ConfigCommit.ReportsCountOnlyWithTheLease` | src/api/handler_config.cpp:879-1053 | in every run that handed the lease off and then committed or rolled back, the lease was back when the report arrived, and the report was a clean success or a proven old runtime |
| `ConfigCommit.GuardRemembers` | src/api/handler_config.cpp:240-272 | along every run the lease is away exactly when a report came without it, and the gate is gone exactly when one came with it |
| `ConfigCommit.RuntimeIsAskedToStopExactlyWhen` | src/api/handler_config.cpp:240-316 | a run that ends in recovery required asked the owner to stop the runtime exactly when it can be stopped directly, or no lease was lost and, after a report, admission grants another gate; a clean answer means a stopped runtime |
| `ConfigCommit.ForeignWriteIsLostExactlyWhen` | src/api/handler_config.cpp:786-877 | in every state of every run another writer's transport bytes are lost exactly when the exact file restore wrote the transport, and then the snapshot is there |
| `ConfigCommit.ExitLosesForeignWriteExactlyWhen` | src/api/handler_config.cpp:786-877 | an ordinary exit has lost them exactly when the reservation or the mutation failed with anything but the conflict that mutates nothing; no exit at all has lost them otherwise |
| `ConfigCommit.CrashLosesForeignWriteExactlyWhen` | src/backup/recovery_coordinator.cpp:247-471 | after a crash in any state, recovery at start loses them exactly when the journal is still active or they were overwritten before, unless a marker forbids automatic recovery |
| `ConfigCommit.ForeignWriteCanBeLost` | src/api/handler_config.cpp:836-877 | a run in which another writer's newer bytes are overwritten by the exact rollback |
| `ConfigOutcomes.ExitIsReachableExactlyWhen` | src/api/handler_config.cpp:640-1171 | from every state of every run each exit, success included, is reachable if and only if it is open there; what keeps it open is a table of guards: no marker, no overtaking, a clean report with the lease back |
| `ConfigOutcomes.EverySaveCanCommit` | src/api/handler_config.cpp:640-1171 | every save that starts without a marker has a run that ends committed, with the new config, the new runtime and the journal closed |
| `ConfigOutcomes.CommitsExactlyWhen` | src/api/handler_config.cpp:879-1171 | a finished run has committed if and only if the owner reported a clean success, the lease was back, and no journal step failed afterwards |
| `ConfigCommit.CrashIsAtomic` | src/backup/recovery_coordinator.cpp:247-471 | a crash in any state of any run is repaired at start to exactly the old or exactly the new bytes, unless a marker forbids automatic recovery |
| `ConfigCommit.RunsAreBounded` | src/api/handler_config.cpp:640-1171 | no run has more than 22 steps |
| `ConfigCommit.OnlyExitsAreFinal` | src/api/handler_config.cpp:640-1171 | no run gets stuck: exactly the exits have no successor |
| `LeaseGuard.BackupRuntimeMutationGuard.ArmHandoffGate` | src/api/handler_backup.cpp:1047-1067 | the gate is armed exactly when the lease is at home, no gate is open and admission grants it |
| `LeaseGuard.BackupRuntimeMutationGuard.TakeLease` | src/api/handler_backup.cpp:1069-1083 | a hand-off needs an armed gate and gives away the one original lease |
| `LeaseGuard.BackupRuntimeMutationGuard.RestoreLease` | src/api/handler_backup.cpp:1085-1105 | only the exact original lease closes a hand-off, which also retires the gate |
| `LeaseGuard.StepIsSound` | src/api/handler_backup.cpp:1047-1105 | every operation of the guard, of callbacks and of other lease holders keeps each issued lease in exactly one place until it is released |
| `LeaseGuard.EveryRunIsSound` | src/api/handler_backup.cpp:1047-1105 | after every sequence of operations that holds; the guard's place has the original lease or, during a hand-off, nothing; hand-offs exceed returns by the open one |
| `LeaseGuard.OriginalIsInOnePlace` | src/api/handler_backup.cpp:1047-1105 | at any time exactly one of these holds: the guard has the original lease, the request's variable has it, somebody else has it once, or it was released |
| `LeaseGuard.OnlyTheOriginalReturns` | src/api/handler_backup.cpp:1085-1105 | only the original lease is ever accepted back, and its return closes the hand-off and the gate |
| `LeaseGuard.HandOffNeedsReturn` | src/api/handler_backup.cpp:1047-1105 | a hand-off starts only with an armed gate and after every earlier lease came back |
| `LeaseGuard.LostLeaseEndsEverything` | src/api/handler_backup.cpp:1047-1105 | once the original lease was released, no later operation starts or closes a hand-off |
| `BackupRestore.RestoreRun.ApplyRuntimeConfig` | src/api/handler_backup.cpp:1160-1196 | what an apply comes to is decided by the gate, the owner's answer and the exact lease; without the lease back the state is unknown |
| `BackupRestore.RestoreRun.StartForward` | src/api/handler_backup.cpp:1204-1230 | gate, files and transport manager in order; it succeeds exactly when all of them do, and a restart counts as attempted only after its hook |
| `BackupRestore.RestoreRun.SendNext` | src/api/handler_backup.cpp:1231-1264 | the new config is sent once; it is done, unclear or broken exactly as the owner's answer and the hook after it say |
| `BackupRestore.RestoreRun.FinishForward` | src/api/handler_backup.cpp:1265-1275 | the last service is restarted at most once, and this part succeeds exactly when hook and restart do |
| `BackupRestore.RestoreRun.MoveForward` | src/api/handler_backup.cpp:1199-1286 | done exactly when everything went well, unclear exactly when the owner's answer proves nothing; the forward effects tell how far it came |
| `BackupRestore.RestoreRun.Compensate` | src/api/handler_backup.cpp:1286-1368 | files first, then the attempted services, and in between the old config exactly when the new one was confirmed and admission grants the gate; complete exactly when all of it went well |
| `BackupRestore.RestoreRun.ApplyPreparedRestore` | src/api/handler_backup.cpp:1119-1368 | in every world: restored if and only if everything went well, ambiguous if and only if the owner's answer proves nothing and then nothing is undone; every other failure is compensated by exactly the rollback plan, and counts as complete if and only if all of that went well |
| `BackupRestore.PlansKeepTheOrder` | src/api/handler_backup.cpp:1199-1368 | forward and backward go from files to the transport manager to the runtime to nfqws, and the forward plan holds exactly what the restore calls for |
| `BackupRestore.EachBodyIsSentOnce` | src/api/handler_backup.cpp:1144-1368 | in every run each config body is sent at most once, the old one only after the new one |
| `BackupRestore.RollbackMirrorsForward` | src/api/handler_backup.cpp:1286-1368 | a rollback undoes the files once and restarts exactly the services whose restart was attempted |
| `CatalogPresets.Find` | src/api/handler_catalog.cpp:202-232 | the first preset with an id, or none |
| `CatalogPresets.FindPreset` | src/api/handler_catalog.cpp:202-232 | the search loop finds the first preset with the id |
| `CatalogPresets.AlignmentAligns` | src/api/handler_catalog.cpp:283-295 | aligning makes the DNS subnets those of the bundle and touches nothing outside the engines |
| `CatalogPresets.AlignedExactlyWhenUnchanged` | src/api/handler_catalog.cpp:283-295 | aligning is the identity exactly on presets that already have the bundled subnets |
| `CatalogPresets.AlignmentThrowsExactlyWhen` | src/api/handler_catalog.cpp:283-295 | a type error is thrown exactly when there are subnets to write and no object to write them into |
| `CatalogPresets.CollectDomains` | src/api/handler_catalog.cpp:311-330 | the nonempty strings of both lists, each once, in order of first occurrence |
| `CatalogPresets.MergeSupplements` | src/api/handler_catalog.cpp:297-335 | the merge loop equals its specification; what the merged list then holds is stated by `MergedDomainsAre` |
| `CatalogPresets.MergingSettles` | src/api/handler_catalog.cpp:297-335 | merging supplements twice is merging once; subnets and other fields stay; the metadata is gone |
| `CatalogPresets.AligningKeepsMerged` | src/api/handler_catalog.cpp:283-335 | aligning keeps a merged preset merged |
| `DistinctValues.Distinct` | src/api/handler_catalog.cpp:311-330 | keeps every value once, in order of first occurrence |
| `CatalogDomains.MergedDomainsAre` | src/api/handler_catalog.cpp:309-330 | a text is among the merged domains if and only if it is a nonempty text of the existing list or of the supplements; none is repeated and the existing ones come first |
| `CatalogDomains.EditGrows` | src/api/handler_catalog.cpp:283-335 | an edit loses no domain, adds exactly the supplementary ones, and changes nothing else below the engines but the subnets |
| `CatalogDomains.EditsAreTheBundles` | src/api/handler_catalog.cpp:499-604 | the edits told from the bundle itself: every named preset that owns something, and the sources its companions name |
| `CatalogDomains.OverlayDomainsExactly` | src/api/handler_catalog.cpp:491-608 | after the overlay every upstream preset has exactly the domains it had and those the bundle supplements it with, in order, with other engines and DNS fields unchanged |
| `DistinctValues.DistinctKeepsOrder` | src/api/handler_catalog.cpp:311-330 | values stand in the order in which they are first met |
| `CatalogOverlay.EditSettles` | src/api/handler_catalog.cpp:536-602 | an edit establishes what it stands for and writes only package-owned fields |
| `CatalogOverlay.SettledExactlyWhenUnchanged` | src/api/handler_catalog.cpp:536-602 | an edit is the identity exactly on presets that already show what it stands for |
| `CatalogOverlay.EditKeepsSettled` | src/api/handler_catalog.cpp:536-602 | edits that stem from one bundled preset do not undo each other |
| `CatalogOverlay.RunSettles` | src/api/handler_catalog.cpp:499-604 | after all edits every edit is settled |
| `CatalogOverlay.OverlayIsIdempotent` | src/api/handler_catalog.cpp:491-608 | with unique bundled ids, overlaying the result of a successful overlay changes nothing; the upstream list may hold anything |
| `CatalogOverlay.OverlayKeepsTheRest` | src/api/handler_catalog.cpp:491-608 | upstream presets keep their places; one the bundle neither owns nor uses as a source is unchanged, the others change only in the fields an edit may write |
| `CatalogOverlay.WellFormedOverlaySucceeds` | src/api/handler_catalog.cpp:491-608 | on well-formed catalogues the overlay never throws |
| `CatalogOverlay.OverlayOwn` | src/api/handler_catalog.cpp:530-571 | adds the bundled preset or overwrites what it owns, then merges its supplements |
| `CatalogOverlay.OverlaySource` | src/api/handler_catalog.cpp:576-603 | adds a companion's source preset or keeps its subnets bundled |
| `CatalogOverlay.OverlaySources` | src/api/handler_catalog.cpp:576-603 | the companion loop applies its edits in order |
| `CatalogOverlay.OverlayParent` | src/api/handler_catalog.cpp:499-604 | one turn of the outer loop applies the parent's edits in order |
| `CatalogOverlay.EnrichCatalogWithRoutingCompanions` | src/api/handler_catalog.cpp:491-608 | the whole overlay equals its specification; lists that are not arrays are returned untouched; a type error discards everything |
| `CatalogCovers.RoundMakesProgress` | src/api/handler_catalog.cpp:241-266 | a round that appends something strictly decreases the bundled ids still absent, so the loop ends |
| `CatalogCovers.ClosureCloses` | src/api/handler_catalog.cpp:234-267 | no `covers` list of the result names a bundled preset that is absent |
| `CatalogCovers.ClosureIsLeast` | src/api/handler_catalog.cpp:234-267 | everything appended is the bundle's preset of an id that every closed choice must hold, absent before and first in the result |
| `CatalogCovers.AppendedCoverAllNeeds` | src/api/handler_catalog.cpp:234-267 | the appended ids are themselves a closed choice, so the least one is taken |
| `CatalogCovers.ClosedIsKept` | src/api/handler_catalog.cpp:234-267 | a closed list is returned as it is |
| `CatalogCovers.CollectMissing` | src/api/handler_catalog.cpp:242-255 | the missing ids, each once and in ascending order |
| `CatalogCovers.LookUp` | src/api/handler_catalog.cpp:257-265 | the bundled presets of these ids, in this order |
| `CatalogCovers.AppendMissingCoveredPresets` | src/api/handler_catalog.cpp:234-267 | the fixpoint loop equals the closure |
| `OrderedKeys.Insert` | src/api/handler_catalog.cpp:242-258 | an ordered set of ids stays ascending and holds exactly the old ids and the new one |
| `OrderedKeys.AscendingIsUnique` | src/api/handler_catalog.cpp:242-258 | an ordered set is iterated in one way only |
| `NaturalOrder.RunsCompareAsNumbers` | src/api/handler_lists_query.cpp:50-63 | comparing digit runs by length without leading zeros and then as texts is comparing them as numbers of any size |
| `NaturalOrder.CompareRuns` | src/api/handler_lists_query.cpp:50-63 | the digit branch decides the order of the two numbers |
| `NaturalOrder.NaturalCompare` | src/api/handler_lists_query.cpp:46-73 | the loop equals lexicographic comparison of token lists: maximal digit runs by value, other bytes by code |
| `NaturalOrder.CompareIsAntisymmetric` | src/api/handler_lists_query.cpp:46-73 | the comparison is antisymmetric, and zero exactly for equal token lists |
| `NaturalOrder.CompareIsTransitive` | src/api/handler_lists_query.cpp:46-73 | the comparison is transitive, hence a total preorder of texts |
| `ListQuery.BeforeIsTotal` | src/api/handler_lists_query.cpp:217-223 | in both directions rows with distinct ids are ordered one way or the other, never both |
| `ListQuery.BeforeIsTransitive` | src/api/handler_lists_query.cpp:217-223 | in both directions the row order is transitive, tie-break by id included |
| `ListQuery.OrderIsUnique` | src/api/handler_lists_query.cpp:217-223 | there is one order of the same rows, so all pages of a query cut the same list |
| `ListQuery.Sort` | src/api/handler_lists_query.cpp:217-223 | the rows in that order, none lost |
| `ListQuery.OrderMeansKeys` | src/api/handler_lists_query.cpp:217-223 | ascending puts no smaller key later, descending no larger one, and equal keys stand in the order of their ids either way |
| `ListQuery.WordsNarrow` | src/api/handler_lists_query.cpp:202-214 | searching for all words is searching the found rows for the remaining ones |
| `ListQuery.ContainsMeans` | src/api/handler_lists_query.cpp:208-212 | a word occurs in a field exactly when the field is that word between two other texts |
| `ListQuery.PageOffsetIsInside` | src/api/handler_lists_query.cpp:226-231 | a late offset falls back to the last nonempty page of the walk from the start |
| `ListQuery.PagesCoverTheRows` | src/api/handler_lists_query.cpp:226-249 | pages at 0, L, 2L, ... concatenate to the sorted rows, each once |
| `ListQuery.Search` | src/api/handler_lists_query.cpp:187-216 | exactly the rows in which every word occurs, in order |
| `SearchText.LowerSearchText` | src/api/query_text.hpp:10-43 | the folding loop equals its specification |
| `SearchText.FoldingIsByCharacter` | src/api/query_text.hpp:8-43 | for every Unicode text, folding its UTF-8 bytes makes each ASCII or Russian capital its small letter and leaves every other character |
| `SearchText.LowerIsIdempotent` | src/api/query_text.hpp:8-43 | folding a folded text changes nothing, so a search does not depend on how often it was folded |
| `SearchText.FoldedHasNoCapital` | src/api/query_text.hpp:8-43 | a folded text holds no capital of either alphabet, also where a letter meets what follows it |
| `SearchText.FoldingKeepsPlaces` | src/api/query_text.hpp:10-43 | folding keeps white space and the beginnings of characters where they are |
| `SearchText.WordsAreTheRuns` | src/api/handler_lists_query.cpp:182-184 | the words are the longest runs without white space, all of them and nothing else |
| `SearchText.SearchWordsAreFoldedWords` | src/api/handler_lists_query.cpp:182-184 | the words looked for are the folded words of the search text as it was typed |
| `SearchText.SplitWords` | src/api/handler_lists_query.cpp:182-184 | the extraction loop gives these words |
| `ListQuery.Validate` | src/api/handler_lists_query.cpp:17-34 | accepts exactly queries with valid bounds, at most 256 characters of search text and known sort and order names |
| `ListQuery.BuildListPage` | src/api/handler_lists_query.cpp:172-251 | totals, offset and items of the page, cut from the ordered rows that hold every word of the search text, and a bad request exactly for an invalid query |
| `WireguardIdentity.SlotExactlyWhen` | src/keenetic/ndms_wireguard_identity.cpp:30-54 | a name is accepted exactly when it is the canonical name of a slot from 0 to 126 |
| `WireguardIdentity.ParseIdentity` | src/keenetic/ndms_wireguard_identity.cpp:30-54 | the parsing loop equals its specification |
| `NativeInventory.ParsedNamesAreCanonical` | src/api/handler_ndms_names.cpp:603-607 | the comparison with the canonical name never refuses a name that parsed |
| `NativeInventory.LowerBound` | src/api/handler_ndms_names.cpp:726-732 | binary search over a strictly sorted list finds the first name that is not less |
| `NativeInventory.FindRetained` | src/api/handler_ndms_names.cpp:726-738 | a tombstone row has a retained deletion exactly when the search hits one with its name and revision |
| `NativeInventory.CheckRetained` | src/api/handler_ndms_names.cpp:682-714 | the walk with the previous name accepts exactly strictly ascending, valid and agreeing entries |
| `NativeInventory.ValidRetainedDeletionBatch` | src/api/handler_ndms_names.cpp:669-741 | accepts exactly the valid batches |
| `NativeInventory.ValidNativeInventoryProjection` | src/api/handler_ndms_names.cpp:743-768 | accepts exactly the projections all of whose parts are valid |
| `NativeInventory.TombstonesCorrespond` | src/api/handler_ndms_names.cpp:716-741 | with distinct tunnel names, tombstone rows and retained deletions of present tunnels correspond one to one with equal revisions |
| `NativeInventory.DeleteCandidateExactlyWhen` | src/api/handler_ndms_names.cpp:476-595 | in an accepted projection a row is a delete candidate exactly when it is an active row of a managed native target of matching kind, the catalogue is fresh and both journals are clean |
| `NativeInventory.ForgetCandidateExactlyWhen` | src/api/handler_ndms_names.cpp:597-667 | in an accepted projection a retained deletion is a forget candidate exactly when its target is absent, its schema allows it, the catalogue is fresh and both journals are clean; its name is always a managed one |
| `NativeProjection.ValidatedClaims` | src/keenetic/ndms_native_inventory_projection.cpp:83-107 | the ownership records are used exactly when readable, at most 128, each valid and no name twice |
| `NativeProjection.ProjectNativeInventory` | src/keenetic/ndms_native_inventory_projection.cpp:329-366 | one row per interface in order and one retained deletion per tombstone in name order |
| `NativeProjection.ProjectionIsAcceptedExactlyWhen` | src/api/handler_ndms_names.cpp:743-768 | the panel accepts what the projection builds if and only if the journals are known and, with usable records, there are at most 94 tombstones, none under the name of an interface of another kind |
| `NativeProjection.ManyTombstonesAreRefused` | src/api/handler_ndms_names.cpp:673-680 | valid records with 95 tombstones make the panel refuse the whole projection |
| `DnsReply.SplitJoins` | build_scripts/diagnostics/keenetic-load.py:38-45 | splitting a name at its dots loses nothing |
| `DnsReply.PacketIsWellFormed` | build_scripts/diagnostics/keenetic-load.py:38-45 | a query is a header with the identifier and one question whose owner is the name, at most 271 bytes |
| `DnsReply.WalkAcceptsOwners` | build_scripts/diagnostics/keenetic-load.py:61-79 | every well-formed owner name, labels or a strictly backward pointer, is walked to its end |
| `DnsReply.WalkedIsOwner` | build_scripts/diagnostics/keenetic-load.py:61-79 | whatever is walked to its end is a well-formed owner name |
| `DnsReply.WalkAcceptsRecords` | build_scripts/diagnostics/keenetic-load.py:60-87 | a sequence of well-formed records is walked to its end and its IPv4 addresses are counted |
| `DnsReply.WalkedAreRecords` | build_scripts/diagnostics/keenetic-load.py:60-87 | whatever is walked to its end is such a sequence of records |
| `DnsReply.EchoIsComplete` | build_scripts/diagnostics/keenetic-load.py:57-58 | for a query with a header, an echo has all of its question |
| `DnsReply.CheckedExactlyWhen` | build_scripts/diagnostics/keenetic-load.py:48-90 | a reply is accepted with n exactly when header and question match, the announced answers are well-formed records, and n > 0 of them are A/IN records of four bytes; for byte strings of any length |
| `DnsReply.AnswerIsAccepted` | build_scripts/diagnostics/keenetic-load.py:38-90 | every well-formed answer to the probe's own query that holds an address is accepted and its addresses are counted |
| `DnsReply.ReadRecord` | build_scripts/diagnostics/keenetic-load.py:61-87 | one record: all reads inside the reply, and the loop over labels ends |
| `DnsReply.CheckDnsReply` | build_scripts/diagnostics/keenetic-load.py:48-90 | the whole check equals its specification, error by error |
| `DeviceInventory.MacsAgreeExactlyWhen` | src/api/device_inventory.hpp:42-52 | two MACs are read as the same one exactly when they agree letter by letter, case aside |
| `DeviceInventory.SummaryNext` | src/api/device_inventory.hpp:53-65 | one more observation keeps name and activity of the first, the first MAC, and an exact conflict flag |
| `DeviceInventory.ConflictNext` | src/api/device_inventory.hpp:59-63 | comparing with the first MAC alone finds every disagreement of any two observations |
| `DeviceInventory.Fold` | src/api/device_inventory.hpp:55-67 | the map holds exactly the first 512 distinct addresses after every observation |
| `DeviceInventory.Inventory` | src/api/device_inventory.hpp:14-74 | exactly the first 512 distinct usable addresses of the first 2048 hosts, each once and ascending; conflict exactly when two observations carry different MACs; truncated exactly when a bound was exceeded |
| `DeviceInventory.InOrder` | src/api/device_inventory.hpp:69-72 | the entries by ascending address |
| `AwkMask.ScanKeepsBefore` | build_scripts/mask_awk_for_shell_scan.py:71-114 | scanning never changes what is before the cursor |
| `AwkMask.MoveIsSame` | build_scripts/mask_awk_for_shell_scan.py:71-114 | searching a masked line for commands and quotes finds what it found in the original |
| `AwkMask.ScanIsIdempotent` | build_scripts/mask_awk_for_shell_scan.py:71-114 | scanning a masked line makes the same moves and masks nothing new |
| `AwkMask.MaskLineIsIdempotent` | build_scripts/mask_awk_for_shell_scan.py:57-116 | the same for a line that starts inside a program |
| `AwkPrograms.SearchFindsFirst` | build_scripts/mask_awk_for_shell_scan.py:19-19 | the search finds the first awk command at the start of the line or after a separator, and fails only when there is none |
| `AwkPrograms.ProgramOpensExactlyWhen` | build_scripts/mask_awk_for_shell_scan.py:71-107 | the next quote opens a program exactly when it is the first after the options of the first command (or of one still waiting), only options stand in between, and it does not quote an option's value |
| `AwkPrograms.WaitsExactlyWhen` | build_scripts/mask_awk_for_shell_scan.py:72-88 | a program is looked for on the next line exactly when the command has no quote on this one and the line ends in a backslash |
| `AwkPrograms.ScanBlanks` | build_scripts/mask_awk_for_shell_scan.py:71-114 | from the cursor on exactly the programs are blanked, and the line ends inside one exactly when its last quote opened it |
| `AwkPrograms.LineBlanks` | build_scripts/mask_awk_for_shell_scan.py:57-116 | the same for a line from any state |
| `AwkPrograms.MaskIsExact` | build_scripts/mask_awk_for_shell_scan.py:52-118 | the text of every program, from its opening quote to the next quote over any number of lines, becomes spaces except for CR and LF, and nothing else changes; for sources with any line ends |
| `AwkPrograms.MaskIsIdempotent` | build_scripts/mask_awk_for_shell_scan.py:52-118 | for sources with CR and LF line ends, masking keeps every line end, and masking again changes nothing |
| `AwkPrograms.ShellTextStaysExactlyWhen` | build_scripts/mask_awk_for_shell_scan.py:4-8 | shell text outside single quotes, every quote character counted, stays visible exactly when every program with some text opens at a quote with an even number of quotes before it |
| `AwkPrograms.QuotedAwkHidesShellText` | build_scripts/mask_awk_for_shell_scan.py:71-114 | a source in which the word awk stands in quoted shell text and unquoted shell text is blanked |
| `AwkMaskLoops.MaskSegment` | build_scripts/mask_awk_for_shell_scan.py:25-28 | overwrites the segment in place, line ends excepted |
| `AwkMaskLoops.ScanInPlace` | build_scripts/mask_awk_for_shell_scan.py:71-114 | the scanning loop equals its specification; the cursor strictly advances |
| `AwkMaskLoops.MaskLineInPlace` | build_scripts/mask_awk_for_shell_scan.py:57-116 | one line, from any state |
| `AwkMaskLoops.MaskSingleQuotedAwkPrograms` | build_scripts/mask_awk_for_shell_scan.py:52-118 | the loop over the lines of any source blanks exactly its programs |

## Left out

- ConnectionPages.QueryStore.Query: filtering and sorting of connections are given as the list of ids; base64 of the cursor is treated as an invertible codec.
- ConfigCommit.StepKeeps: the commit is a relation on values, not in-place code; journal, coordinator and file bodies are the contracts of their steps, and lifecycle bookkeeping is not modelled.
- BackupRestore.RestoreRun.ApplyPreparedRestore: bundle validation, group selection and the untyped legacy restore path are not modelled; files and services are their effects.
- LoginObjects.AuthLoginRateLimiter.ReserveAttempt: the normalisation of remote addresses to source keys is not modelled; sources are keys.
- LoginObjects.Permit.Move: assigning one permit over another is not modelled; it is a destruction followed by a move.
- ListQuery.BuildListPage: the per-list counters and the labels collected from rules are not modelled; the searched fields and the sort key of a list are given.
- NativeProjection.ProjectNativeInventory: the fallback after an allocation failure is not modelled.
- CatalogOverlay.EnrichCatalogWithRoutingCompanions: a JSON value is rewritten rather than updated through a reference, so aliasing is not captured.
- DeviceInventory.Inventory: the IPv4 parser is a parameter that gives the first octet of a valid text.
- AwkPrograms.MaskIsIdempotent: states idempotence for CR and LF line ends; other line ends inside a program are blanked like text, which joins lines.
- AwkPrograms.ShellTextStaysExactlyWhen: approximates shell quoting by the number of single quotes before a place; quotes inside double quotes or after a backslash count too.
- AwkMaskLoops.MaskSingleQuotedAwkPrograms: option splitting and the quoted-option pattern are predicates on texts.
- The session registry of the authentication runtime: a map with expiry that would only add easy members.
- Routing connection selection, DNS query log reading and device names of the connections handler: filters over maps.
- Conntrack and JSON text parsing, hashing, sockets, clocks and process control.
- Enumeration-to-name switches and the finite result validators of native deletion and tombstone forgetting: settled by reading their cases.
- Wrap-around of counters and of seconds held in machine words.
