# Verified model of reprodb

reprodb keeps MySQL dumps in an on-disk cache that several processes stage, publish, lease, look up,
prune and sweep at once, replays a validated dump into a local database, and pushes one to a remote
server only past a gate. This project models that behaviour in Dafny and proves what the code
promises about it. `dafny verify dfyconfig.toml` checks everything.

| file | models |
|---|---|
| `Domain.dfy` | bytes, u64 arithmetic, ideal digests, dump metadata |
| `ArtifactProtocol.dfy`, `ArtifactSafety.dfy`, `ArtifactTheorems.dfy` | the life of an artifact directory as a step machine: writers, removers and readers in any number and any interleaving, locks that belong to inodes, failures and crashes between any two calls |
| `ArtifactStore.dfy` | `begin`, `create_dump_writer`, `publish`, `Drop` and `isolate_and_remove` as imperative runs of that machine |
| `Compression.dfy`, `CompressionChannel.dfy` | the counting writer and the encoder task, and the reader, the capacity-2 channel and the encoder under every schedule |
| `Snapshot.dfy`, `Validator.dfy`, `EndToEnd.dfy` | what one look at the cache answers, the restore validator, and compression, publication and validation joined |
| `Names.dfy`, `Hashing.dfy`, `Ordering.dfy`, `Durations.dfy` | directory names, length-prefixed keys, the stable sort, durations |
| `CacheIndex.dfy`, `CacheAgreement.dfy` | the two lookups and the inventory, and their agreement |
| `Prune.dfy`, `Cleanup.dfy` | the prune selection, the plan, the prune run and the sweep |
| `PlanAgreement.dfy`, `PruneAndLookup.dfy`, `CleanupOnProtocol.dfy` | the prune plan against the inventory of the same cache, lookups before and after a prune run, and the cleaner's removals against those of the step machine |
| `RestoreMachine.dfy`, `RestoreTruth.dfy`, `RestoreEngine.dfy` | restores as a step machine with the target gate, late failures and crashes; when its markers tell the truth; and one call of `restore` as a run of it |
| `Credentials.dfy` | the configuration file and the credential store under setup and profile commands |
| `PushGate.dfy`, `PushService.dfy` | the push gate and the order of `push` |
| `Cancellation.dfy` | the cancellation token |

## What stands for what

- SHA-256 is ideal: a digest is its preimage. The compressed format is known by its decoder alone; the
  encoder is any streaming encoder whose frame decodes to its input (`Compression.Sound`).
- A file lock belongs to the inode of the lock file a process opened; opening and locking are two steps.
  A crash removes a process and so its locks, and stops its MySQL client.
- Docker, MySQL, prompts, probes and the identifiers they generate are parameters or nondeterministic
  steps. Random UUIDs are values not in use on the disk, except for credential keys, where nothing is assumed.
- `Metadata` only exists as its constructor allows (src/domain/artifact.rs:172-186), and a metadata file
  that says anything else is corrupt.
- Configuration properties hold for commands run one at a time: load, change and save are not locked as a whole.
- Nobody but reprodb writes the local databases it restores into; what a Ready marker says of one rests on that.
- A retry loop, a partial write or a schedule is a script of replies; statements hold for every script.

## Where the promise and the code part

- docs/cache-locks-cleanup.md:48 says that the next cleanup finishes a deletion interrupted after the
  rename. The code does so when a prune, or the removal of a stage, was interrupted. A crash inside the
  removal of an already isolated directory leaves a name set aside twice, which no sweep recognises
  (`Names.DeletionIsRecognisedOnce`, `Cleanup.SweepFinishesDeletions`), so the directory stays for ever:
  three crashes after the empty cache are enough (`ArtifactTheorems.CrashedSweepStrands`).
- A Ready marker is trustworthy as long as the configuration is not reset, whatever targets there are
  (`RestoreTruth.TruthfulUntilReset`): the target gate refuses a restore when the configuration names no
  runtime context, or another one than the target's (src/application/local_target_gate.rs:101-109), and no
  command but a reset drops that context (`Credentials.OnlyResetDropsContext`). A reset, or a hand edit,
  leaves the state files behind. Lock and marker are named by Docker context, container and database, so
  after a setup under another context of the same daemon a restore works on the same database under
  another lock and another marker, and the old Ready lies (`RestoreTruth.AliasBetrays`). With resets
  allowed, markers can be trusted exactly when no database is reached through two targets
  (`RestoreTruth.ReadyIsTruthfulExactlyWhen`).
- A save that fails after its rename makes the credential rollback delete a key the saved file needs
  (`Credentials.ConsistentExactlyUnless`, `Credentials.LateSaveBetrays`); other late failures leave a
  credential no error names (`Credentials.AccountedExactlyUnless`).
- Lookup and inventory disagree when the freshness TTL outlives the retention
  (`CacheAgreement.ReadyExactlyWhenReusable`); inventory and prune plan disagree in the last representable
  second only (`PlanAgreement.PrunableIsPruned`, `CacheAgreement.LastSecondDisagrees`).
- On equal completion times `KeepLast` keeps the larger IDs (src/domain/prune.rs:84-88) and a lookup prefers
  the smaller (src/infrastructure/cache.rs:174-175), so a prune can destroy the very artifact a lookup would
  have hit (`PruneAndLookup.PruneChangesTheHit`); the next lookup still hits, at the same age, when nothing as
  new was unusable (`PruneAndLookup.KeepLastKeepsTheAge`). A prune by age takes fresh artifacts when it asks
  for less than the freshness TTL (`PruneAndLookup.AgePruneKeepsAnswersExactlyWhen`).
- `publish` may return an error although the artifact is visible (`ArtifactStore.StagedDumpArtifact.Publish`).

## Model

| member | source | states |
|---|---|---|
| ArtifactTheorems.StepKeeps | src/infrastructure/artifact_store.rs:419-443 | every call, failure or crash of any writer, remover or reader keeps the protocol invariant |
| ArtifactTheorems.ReachableKeeps | src/infrastructure/artifact_store.rs:38-85 | the invariant holds after every run from an empty cache, crashes included |
| ArtifactTheorems.PublishedIsComplete | src/infrastructure/artifact_store.rs:494-556 | in every reachable state a directory under a complete name has lock, dump and metadata of that very place and ID, recording the sizes and digests of the compression that wrote it |
| ArtifactTheorems.ConfirmedLeaseKeepsArtifact | src/infrastructure/restore_artifact.rs:122-150 | a reader that took a lease and then found the metadata keeps that directory, with those files, at that path through every continuation without its own steps |
| ArtifactTheorems.LeaseAloneIsNotEnough | src/infrastructure/artifact_store.rs:419-443 | from every state with an unlocked artifact some run gives a reader a shared lock on a directory no longer at its path: opened before the rename, locked after |
| ArtifactTheorems.HeldStageIsUntouched | src/infrastructure/cache_cleanup.rs:303-329 | no action of another process removes, renames or alters a stage whose writer holds its lock |
| ArtifactTheorems.TwiceIsolatedIsStranded | src/infrastructure/cache_cleanup.rs:207-232 | a directory isolated twice, with nobody at work on it, stays through every future run |
| ArtifactTheorems.CrashLeavesIsolated | src/infrastructure/cache_cleanup.rs:303-329 | from any state with an unlocked removable directory a removal that crashes after its rename leaves it, whole, under the isolated name and nobody at work on it |
| ArtifactTheorems.CrashedSweepStrands | src/infrastructure/cache_cleanup.rs:303-329 | from the empty cache a crashed writer and two crashed sweeps lead to a twice isolated directory and no process, and it stays through every future run |
| ArtifactStore.CacheDisk.IsolateAndRemove | src/infrastructure/cache_cleanup.rs:303-329 | Gone, Locked, Failed or Removed exactly by absence, lock and the call that met an I/O error; only the victim's name disappears, and after an error past the rename exactly the files not yet removed are left under the isolated name; every intermediate state is one of the protocol |
| ArtifactStore.StagedDumpArtifact.Begin | src/infrastructure/artifact_store.rs:38-85 | success means an empty stage already locked by its writer; an error leaves no process and no stage, or, exactly when its permission could not be set or its removal failed, an empty and unlocked one |
| ArtifactStore.StagedDumpArtifact.CreateDumpWriter | src/infrastructure/artifact_store.rs:485-492 | the stage gains an empty dump file and nothing else changes; on an error it gains none, or, when only the file's permission failed, the empty file, and only the drop is left |
| ArtifactStore.StagedDumpArtifact.Drop | src/infrastructure/artifact_store.rs:564-571 | dropping an unpublished stage in any phase removes exactly its name, or, when the removal fails, exactly the files it got to; no other directory changes |
| ArtifactStore.StagedDumpArtifact.Publish | src/infrastructure/artifact_store.rs:494-556 | the identity, content and size errors each exactly when its check is the first to fail; success means the directory moved to its final name with its metadata; any error before the rename drops the stage; an error of the last directory sync leaves the artifact visible |
| Compression.DeliverIsExact | src/infrastructure/compression.rs:256-268 | whatever was cut short, interrupted or refused, a successful write_all appended exactly the buffer |
| Compression.EncodeIsExact | src/infrastructure/compression.rs:207-234 | a successful encoder leaves exactly its frame in the output for every pattern of partial writes |
| Compression.FailurePersists | src/infrastructure/compression.rs:223-228 | an encoder that failed on a prefix of its chunks fails the same way on every longer input |
| Compression.CountingHashWriter.Write | src/infrastructure/compression.rs:260-268 | counter and hash follow what the inner writer accepted; an overflowing counter is an error |
| Compression.CountingHashWriter.WriteAll | src/infrastructure/compression.rs:256-268 | the retrying loop delivers exactly what the specification says, or fails with its failure |
| Compression.EncodeChunks | src/infrastructure/compression.rs:207-234 | the encoder task reports the length and digest of what the output accepted and the digest of the concatenated chunks, and fails exactly when the specification does |
| CompressionChannel.MoveKeeps | src/infrastructure/compression.rs:130-172 | received, queued and pending chunks are always exactly those read, in order |
| CompressionChannel.EverySchedulesOutcome | src/infrastructure/compression.rs:136-174 | every schedule of reader, channel and encoder yields the one outcome fixed by input and output: an encoder failure outranks a reader error, a success counts and digests the exact input and output |
| CompressionChannel.SucceedsExactlyWhen | src/infrastructure/compression.rs:136-174 | `compress` is Ok iff the reader reached the end of a countable input and the encoder succeeded; EncoderStopped is never returned; InputTooLarge only for an uncountable input |
| CompressionChannel.MetricsDescribe | src/infrastructure/compression.rs:176-183 | the metrics of a success satisfy what publication trusts |
| CompressionChannel.AlwaysAMove | src/infrastructure/compression.rs:129-172 | the channel cannot deadlock |
| CompressionChannel.ScheduleIsBounded | src/infrastructure/compression.rs:136-164 | every schedule ends within a bound on the events left |
| Validator.CountingHashReader.Read | src/infrastructure/restore_artifact.rs:227-236 | counter and hash cover exactly the bytes handed to the decoder |
| Validator.ValidateZstdAndChecksums | src/infrastructure/restore_artifact.rs:164-202 | for every pattern of decoder reads the verdict is that of the whole file, and it is acceptance iff the file decodes and has the recorded sizes and digests |
| Validator.AcceptsExactlyTheRestorable | src/infrastructure/restore_artifact.rs:122-150 | the chain of checks accepts exactly the leasable candidates whose metadata names them and describes their bytes |
| Validator.ValidateArtifact | src/infrastructure/restore_artifact.rs:122-150 | the first failing check decides the error |
| Validator.FindCompleteById | src/infrastructure/artifact_store.rs:145-231 | exactly the complete directories of that ID under any profile and database |
| Validator.ValidateById | src/infrastructure/restore_artifact.rs:88-106 | NotFound, DuplicateId and DatabaseMismatch exactly by the number and database of the candidates; success means the one candidate is restorable |
| Validator.AcceptedBytesAreTheOriginals | src/infrastructure/restore_artifact.rs:164-202 | bytes accepted under the metadata of a compression are that compression's output and decode to its input |
| EndToEnd.CompressionFinishes | src/infrastructure/compression.rs:118-184 | a successful compression into the stage satisfies what the protocol asks before publication |
| EndToEnd.PublishedValidates | src/infrastructure/restore_artifact.rs:122-202 | in every reachable state an artifact under a complete name validates and decodes to the compressed input |
| Names.SpellingIsCanonical | src/domain/artifact.rs:32-42 | exactly one string parses as a dump ID: its lower-case hyphenated spelling |
| Names.SpellingKeepsOrder | src/infrastructure/artifact_store.rs:141-142 | sorting IDs by spelling is sorting them by value |
| Names.DeletionNameIsRecognised | src/infrastructure/cache_cleanup.rs:402-420 | the deletion name of an ID or a stage is recognised as an interrupted deletion |
| Names.DeletionIsRecognisedOnce | src/infrastructure/cache_cleanup.rs:402-420 | for every name at all: its deletion name is recognised iff the sweep reads the name as artifact or stage, so never a second time |
| Names.SweepAndPruneAreDisjoint | src/infrastructure/cache_cleanup.rs:150-160 | no name is both removable by the sweep and a prune candidate |
| Names.RenderedNamesAreRecognised | src/infrastructure/cache_cleanup.rs:207-232 | the sweep reads each protocol entry's name as that entry, and a twice isolated one as foreign |
| Names.RenderIsInjective | src/infrastructure/cache_cleanup.rs:414-420 | artifact, stage and isolated names are pairwise different |
| Hashing.EncodingIsInjective | src/infrastructure/operation_lock.rs:145-148 | two field lists of any lengths hash the same bytes only if equal |
| Hashing.Hasher.HashField | src/infrastructure/operation_lock.rs:145-148 | the fed bytes are the domain and the length-prefixed fields so far |
| Hashing.NewKey | src/infrastructure/operation_lock.rs:68-80 | the key digests scope and fields |
| Hashing.LocksCoincideExactlyWhen | src/infrastructure/operation_lock.rs:38-80 | lock keys, and their digests alone, are equal iff scope and every field are |
| Hashing.TargetDigest | src/infrastructure/restore_state.rs:109-121 | the state file is named by context, container and database |
| Hashing.StateFileIsCoveredByLock | src/infrastructure/restore_state.rs:109-121 | two targets share a state file iff they share the target lock |
| Hashing.SourceProfileFingerprint | src/infrastructure/config.rs:376-394 | the fingerprint digests the nine tracked fields |
| Hashing.FingerprintsCoincideExactlyWhen | src/infrastructure/config.rs:376-399 | fingerprints are equal iff all tracked fields are |
| Hashing.DomainsAreSeparate | src/infrastructure/operation_lock.rs:68-71 | lock, state and profile digests never meet |
| Ordering.SortIsStable | src/infrastructure/cache.rs:174-175 | the sort orders by its key and keeps the previous order among equal keys |
| Snapshot.ListComplete | src/infrastructure/artifact_store.rs:87-143 | exactly the directories of the database with both files, by ascending ID |
| Snapshot.ListCompleteForProfile | src/infrastructure/artifact_store.rs:233-280 | exactly the complete artifacts of the profile, ascending within a database, in no order across databases |
| CacheIndex.HashFile | src/infrastructure/cache.rs:476-493 | the digest of the whole file for every pattern of reads |
| CacheIndex.Lookup | src/infrastructure/cache.rs:140-193 | the hit is the newest reusable artifact, ties by smaller ID; a miss means there is none, and blames the newest readable artifact, else the first unreadable one |
| CacheIndex.LookupByDatabase | src/infrastructure/cache.rs:195-268 | the same answer from the scan of the profile, with its own account of a miss |
| CacheIndex.LookupsAgree | src/infrastructure/cache.rs:140-268 | the two lookups give the same verdict and, on a hit, the same artifact and age |
| CacheIndex.MissReasonsMayDiffer | src/infrastructure/cache.rs:195-268 | a busy artifact of another database makes the scan blame InUse where the lookup says NotFound |
| CacheIndex.MissReasonsAgreeWhen | src/infrastructure/cache.rs:140-268 | both blame the same artifact when the newest readable one names its own database |
| CacheAgreement.InspectAll | src/infrastructure/cache.rs:270-383 | one line for every directory, sorted newest first, then by profile, database and ID |
| CacheAgreement.ReadyExactlyWhenReusable | src/infrastructure/cache.rs:328-362 | Ready and reusable coincide for every artifact iff the retention covers the freshness TTL |
| CacheAgreement.HitIsFirstReady | src/infrastructure/cache.rs:140-383 | a lookup hits iff the inventory lists a Ready line for the pair, and the hit is the first such line |
| CacheAgreement.PrunableMeansAged | src/domain/prune.rs:58-70 | under the default retention what is Prunable has aged for the selection iff its expiry fits in a u64; what is Ready, Stale or ClockInFuture has not |
| PlanAgreement.PrunableIsPruned | src/infrastructure/cache_cleanup.rs:120-175 | over one cache at one time, below u64::MAX every Prunable line of the inventory is in the default plan of the planner, at u64::MAX exactly those whose expiry fits, and no Ready, Stale or ClockInFuture line ever is |
| PlanAgreement.IsCandidate | src/infrastructure/cache_cleanup.rs:120-175 | a listed artifact with parsed metadata is a candidate of the planner's walk iff its database is in scope |
| PruneAndLookup.PruneMakesNoHits | src/infrastructure/cache_cleanup.rs:181-205 | whatever is pruned, a later lookup hits only if the one before did, and nothing newer |
| PruneAndLookup.HitStaysExactlyUnless | src/infrastructure/cache_cleanup.rs:181-205 | a prune run changes the answer of a hit iff the hit is in scope, unlocked and meant by the selection |
| PruneAndLookup.AgePruneKeepsAnswers | src/domain/prune.rs:58-70 | a prune by an age of at least the freshness TTL changes no lookup of that or a later time |
| PruneAndLookup.AgePruneKeepsAnswersExactlyWhen | src/domain/prune.rs:58-70 | at one time, every prune by that age keeps every hit iff the age covers the TTL, exceeds the time, or the time is u64::MAX |
| PruneAndLookup.KeepLastKeepsTheAge | src/domain/prune.rs:71-92 | when every dated artifact at least as new as the hit is reusable, keeping the last n >= 1 leaves a hit of the same age, and the same artifact iff the run does not reach it or fewer than n others share its second |
| PruneAndLookup.PruneChangesTheHit | src/infrastructure/cache.rs:174-175 | two dumps of one second and `KeepLast 1`: the lookup before hits the smaller ID, the lookup after the larger |
| CacheAgreement.LastSecondDisagrees | src/infrastructure/cache.rs:346-352 | at u64::MAX the saturating sum calls Prunable what the checked sum never selects |
| Prune.SelectForPrune | src/domain/prune.rs:51-94 | the selected candidates are exactly those the selection means, each once and in an order fixed by the selection |
| Prune.SelectOldest | src/domain/prune.rs:71-92 | grouping, sorting and skipping selects those with at least `count` newer ones, in plan order |
| Prune.KeepsExactlyCount | src/domain/prune.rs:71-92 | every profile and database keeps exactly min(count, size) dumps |
| Prune.KeptAreNewer | src/domain/prune.rs:80-88 | every kept dump is newer by completion and ID than every selected one of its group |
| Prune.OrderDoesNotMatter | src/domain/prune.rs:51-94 | the selection does not depend on the order of the candidates |
| Prune.SurvivorsSurvive | src/domain/prune.rs:51-94 | pruning the survivors again selects nothing |
| Cleanup.LocalCache.RemoveIfUnlocked | src/infrastructure/cache_cleanup.rs:278-294 | an unlocked entry disappears and is counted by its kind, a locked one stays and is counted, a vanished one is neither |
| Cleanup.LocalCache.SweepPartial | src/infrastructure/cache_cleanup.rs:234-269 | a stage from the future is counted and kept, a young one kept, an expired one removed if unlocked |
| Cleanup.LocalCache.SweepEntry | src/infrastructure/cache_cleanup.rs:207-232 | one entry gets the verdict of its name, age and lock, is removed iff that says so, and is counted |
| Cleanup.LocalCache.Sweep | src/infrastructure/cache_cleanup.rs:94-113 | the sweep removes exactly the visited entries it may remove, changes no other, and counts every visit as the cache was at the start |
| Cleanup.LocalCache.PlanPrune | src/infrastructure/cache_cleanup.rs:120-175 | the plan selects exactly what the selection means among the readable artifacts in scope and counts the invalid entries |
| Cleanup.LocalCache.ExecutePrune | src/infrastructure/cache_cleanup.rs:181-205 | exactly the selected, present and unlocked artifacts disappear; counts and the saturating byte sum match |
| Cleanup.SweepLeavesArtifacts | src/infrastructure/cache_cleanup.rs:228-231 | a complete artifact survives every sweep |
| Cleanup.SweepAndPruneNeverCompete | src/infrastructure/cache_cleanup.rs:150-160 | what a sweep removes no plan selects, and a plan's candidates are left by every sweep |
| Cleanup.SweepFinishesDeletions | src/infrastructure/cache_cleanup.rs:217-219 | an unlocked leftover deletion is removed by the next sweep iff it was made from an artifact or a stage |
| Cleanup.SecondSweepFindsNothing | src/infrastructure/cache_cleanup.rs:94-113 | a second sweep at the same time removes nothing it visited before |
| CleanupOnProtocol.CleanersTargetRemovable | src/infrastructure/cache_cleanup.rs:207-232 | the names the sweep may remove or a plan may select are exactly those of the entries the protocol's removers may target |
| CleanupOnProtocol.IsolationIsRemoval | src/infrastructure/cache_cleanup.rs:303-329 | an uninterrupted `isolate_and_remove` of the protocol has the outcome the cleaner counts and leaves, under every recognisable name, exactly the entries the cleaner has left |
| RestoreMachine.ActionMarks | src/application/restore_engine.rs:34-75 | whatever targets are in use, every step, failure before or after its effect, crash, reset and setup keeps one restore per target and the meaning of the state files of running restores |
| RestoreMachine.RestoresNeverOverlap | src/infrastructure/operation_lock.rs:94-116 | in every reachable state two restores of one target are never both past its lock |
| RestoreMachine.IncompleteBeforeDestruction | src/application/restore_engine.rs:58-63 | from every reachable state, whatever changes a database is a restore that holds its target's lock and whose state file already says Incomplete for its dump |
| RestoreMachine.SuccessIsMarked | src/application/restore_engine.rs:62-74 | in every reachable state a restore about to report success has Ready for its dump in its state file |
| RestoreTruth.ActionKeeps | src/application/restore_engine.rs:34-75 | among targets that do not alias, every step, fault, crash and reset keeps every Ready marker truthful and every working restore's database as far as it got |
| RestoreTruth.OneContext | src/application/local_target_gate.rs:101-109 | in every run without a reset all restores the gate lets through are in one Docker context |
| RestoreTruth.TruthfulUntilReset | src/application/local_target_gate.rs:101-109 | after every run without a reset, with no condition on the targets, a Ready(d) file means the database holds exactly the SQL of d, and a restore about to report success restored its dump |
| RestoreTruth.AliasBetrays | src/infrastructure/operation_lock.rs:53-66 | for any two targets of one database a run with a reset and a setup under the other context between two restores leaves a lying Ready file and a success that restored nothing |
| RestoreTruth.ReadyIsTruthfulExactlyWhen | src/application/restore_engine.rs:52-68 | with resets allowed, Ready files are truthful in every reachable state iff no database is reached through two targets |
| RestoreTruth.SuccessMeansRestoredExactlyWhen | src/application/restore_engine.rs:62-74 | and iff so, a restore about to report success has Ready for its dump over exactly the dump's SQL |
| RestoreEngine.RestoreHost.Restore | src/application/restore_engine.rs:34-75 | refusals change nothing; otherwise the exact state file and database each outcome leaves, and nothing else changed |
| RestoreEngine.RestoreHost.RestoreTarget | src/application/local_target_gate.rs:101-109 | RuntimeContextMissing and ContextIdentityChanged exactly by the configured context, changing nothing; a target of that context is restored as above |
| RestoreEngine.RestoreHost.Configure | src/application/setup_service.rs:138-161 | a setup under another context than the configured one is refused; one that goes through makes the gate admit exactly the targets of its context |
| RestoreEngine.RestoreHost.ResetConfiguration | src/infrastructure/config.rs:630-653 | a reset forgets the context, so that the gate admits nothing, and leaves state files and databases |
| RestoreEngine.RestoreHost.SaveState | src/infrastructure/restore_state.rs:53-96 | an early error leaves the old state file, a late one the new |
| Credentials.LocalStores.Save | src/infrastructure/config.rs:654-732 | an invalid configuration or an early error leaves the old file, a late error the new one |
| Credentials.LocalStores.PersistConfigWithCredential | src/application/credential_transaction.rs:39-91 | the durable states it passes through and the error it returns, for every fault |
| Credentials.LocalStores.ConfigureTarget | src/application/setup_service.rs:131-216 | registering a target in place follows the specified trail of durable states |
| Credentials.LocalStores.AddProfile | src/application/profile_service.rs:178-251 | adding a profile follows its trail |
| Credentials.LocalStores.ActivateProfile | src/application/profile_service.rs:253-261 | activation follows its trail |
| Credentials.LocalStores.SetPush | src/application/profile_service.rs:264-280 | changing the push consent follows its trail; production is refused |
| Credentials.LocalStores.RemoveProfile | src/application/profile_service.rs:282-314 | removal saves first and deletes the credential afterwards |
| Credentials.PersistIsConsistent | src/application/credential_transaction.rs:39-91 | provisioning is consistent after every effect, except exactly when a late save error is rolled back |
| Credentials.RegisteredKeeps | src/application/setup_service.rs:157-182 | the registry update keeps every other target's credential and doubles none |
| Credentials.PreviousIsUnreferenced | src/application/setup_service.rs:193-205 | the credential deleted after a registration is referenced by nothing |
| Credentials.OnlyResetDropsContext | src/application/setup_service.rs:139-161 | once a runtime context is configured every durable state of every command keeps it, except of a reset |
| Credentials.ConsistentExactlyUnless | src/application/credential_transaction.rs:39-91 | from consistent stores every durable state of every command is consistent, iff it is not that one fault |
| Credentials.EventConsistentExactlyUnless | src/application/credential_transaction.rs:39-91 | a command with its faults and its crash leaves consistent stores consistent iff it does not get to the rollback of a late save error |
| Credentials.RunsStayConsistent | src/application/profile_service.rs:178-314 | over every sequence of commands, failures and crashes at any effect, the stores are consistent all along (each referenced key stored, none shared) iff no event of the sequence gets to such a rollback |
| Credentials.LateSaveBetrays | src/infrastructure/config.rs:720-732 | a save reported as failed after its rename leaves a referenced key missing |
| Credentials.AccountedExactlyUnless | src/application/setup_service.rs:193-205 | without a crash a command names every key it orphans, iff no effect happened that was reported as failed where the error names no key |
| Credentials.OrphansWereNamed | src/application/profile_service.rs:299-308 | absent crashes, resets and late faults every unreferenced stored key was one before or was named in an error |
| PushGate.EndpointIgnoresCase | src/application/remote_target_gate.rs:245-254 | two spellings of a host that differ in case are one endpoint |
| PushGate.EndpointIgnoresTrailingDot | src/application/remote_target_gate.rs:245-254 | a trailing dot does not make another endpoint |
| PushGate.ProtectedEndpoint | src/application/remote_target_gate.rs:228-243 | the first profile by name that reaches the endpoint without accepting pushes, if any |
| PushGate.EligibleProfiles | src/application/remote_target_gate.rs:62-84 | exactly the offered profiles, allowed ones first and by name within each kind |
| PushGate.FindProtectedServer | src/application/remote_target_gate.rs:181-206 | finds a shielding dump iff there is one |
| PushGate.Verify | src/application/remote_target_gate.rs:102-177 | success iff configuration, attested server and cache all allow it; every refusal by its condition, in the order of the checks |
| PushGate.MenuMatchesGate | src/application/remote_target_gate.rs:62-130 | every offered profile passes the configuration checks with exactly the consent it lacks, every unconsented success is offered, and only the unallowed active profile is withheld |
| PushGate.AllowPushOnlyAdds | src/application/remote_target_gate.rs:88-100 | allowing a profile takes none off the menu, and puts it there iff its endpoint is unprotected |
| PushGate.SplitCheckIsOneCheck | src/application/remote_target_gate.rs:317-355 | attestation on the cache and authorization of the dump together succeed iff one check on the cache with the dump does, the destination is not the dump's own database, and the versions allow it |
| PushGate.ConsentKeepsUnshielded | src/application/remote_target_gate.rs:181-219 | recording the consent does not undo the check |
| PushService.Push.ChooseDestination | src/application/push_service.rs:162-182 | a chosen destination passed the gate with the consent it needed, and nothing was recorded |
| PushService.Push.ChooseDump | src/application/push_service.rs:184-206 | the dump is validated in the cache, and is the new one if one was made |
| PushService.Push.Decide | src/application/push_service.rs:207-236 | going on means authorized, downgrade accepted where needed, and confirmed |
| PushService.Push.AllowPush | src/application/remote_target_gate.rs:88-100 | an unknown or production profile is refused and nothing recorded; otherwise the consent is recorded for that profile alone, also when the save fails late |
| PushService.Push.Write | src/application/push_service.rs:237-254 | consent, lock, database and import happen in this order and a success is all of them |
| PushService.Push.Run | src/application/push_service.rs:151-255 | before the confirmation at most a new dump is left; afterwards the whole check holds of the cache with that dump, and the effects are a prefix of consent, lock, database, import |
| Cancellation.ActionKeeps | src/infrastructure/cancellation.rs:23-41 | at most one broadcast, and nobody awaits a subscription made after it |
| Cancellation.NoLostWakeup | src/infrastructure/cancellation.rs:23-41 | once the cancelling call returned no waiter is stuck, and each returns within three of its own steps, in every interleaving |
| Cancellation.LateSubscriberReturns | src/infrastructure/cancellation.rs:33-41 | a call made after the flag was set returns without sleeping |
| Durations.ParsesExactly | src/cli/mod.rs:379-396 | digits with any leading zeros, with or without a plus sign and with or without a unit, parse to their product, and are refused iff that overflows a u64 |
| Durations.OnlySpellingsParse | src/cli/mod.rs:379-396 | nothing else parses: an accepted text is such a spelling with white space around it |
| Durations.FormatParses | src/cli/cache.rs:205-212 | parsing a printed duration gives it back for every u64 |
| Durations.WhitespaceIsIgnored | src/cli/mod.rs:380-383 | surrounding white space never matters |

## Left out

- Docker, the MySQL client and server, process spawning and prompts: they appear as parameters or nondeterministic outcomes.
- Zstd, SHA-256, JSON, TOML and UUID generation: replaced by an abstract codec, an ideal digest, records and unused values.
- File permissions, symlinks and durability beyond atomic rename: modes are not part of the state; that setting them may fail is a fault of `begin` and of creating the dump file.
- I/O errors while reading in the lookups, the inventory, the plan, the sweep and the validator's listing: they abort the call with an error and change nothing.
- The metadata size limit of 64 KiB: a file over it is a corrupt one.
- `validate_input`, `validate_new_profile`, TLS material and the other single-field checks: one flag in `Credentials`.
- Column sets, policies and preflight of dumping, `doctor`, the command line and error rendering: reporting and single guards.
- Validator.ValidateById: `validate`, the variant that is told the profile, is not modelled; it differs in its lookup only.
- ArtifactStore.StagedDumpArtifact.Begin: the store's calls run without interference there (interleavings are the subject of the protocol theorems), and nobody else can hold the lock of a directory made just now, so ArtifactBusy is no outcome.
- ArtifactStore.StagedDumpArtifact.Publish: no interference either; metrics of another size than the dump file are refused by the size check, metrics of its size are taken to describe it, as the caller's compression into that file guarantees.
- CacheIndex.Lookup: candidates are judged on one snapshot; the lease that makes a concurrent change impossible is the protocol's ConfirmedLeaseKeepsArtifact.
- Cleanup.LocalCache.Sweep: one process on one state; CleanupOnProtocol ties each removal to the protocol's, where removals interleave.
- CompressionChannel.EverySchedulesOutcome: progress updates and the reader's buffer size are not modelled; chunks may have any size.
- PushService.Push.Run: the configuration is read once, as commands run one at a time.
- Cleanup.LocalCache.ExecutePrune: report counters other than the byte sum are unbounded.
