# krx-sdk, modelled and proved in Dafny

`krx-sdk` is the Rust library under the `krx` command line. Much of it is about keeping
local state right while processes run at the same time, fail half-way or lose power, and
about exact arithmetic on prices and dates. This project models those parts and proves
what they promise.

| files | subject |
|---|---|
| `PlainLock`, `PlainLockSafety`, `PlainLockRuns` | the crash-tolerant directory lock as a transition system, one step per file-system call |
| `Quota`, `QuotaRuns` | the daily request counter and any number of concurrent reservations under that lock |
| `AtomicWrite` | replacing a state file by temporary, sync, rename and directory sync |
| `CacheEntry`, `CacheStore`, `CacheSafety`, `CacheRuns`, `Coordination`, `Prune` | cached responses: formats, the two files of an entry, promotion, refresh, pruning |
| `Approval`, `Migration`, `MigrationSafety` | approval rows and the migration of a credential into the keychain |
| `Rational`, `PriceText`, `Adjustment`, `StockHistory` | exact backward price adjustment |
| `CivilDate`, `Calendar`, `CalendarMeaning`, `RangeReduce` | dates, the trading calendar, and the reduction of a date range |
| `ReleaseCheck`, `ReleaseVersion`, `FilterParts` | the cached release check, version numbers, filter expressions |
| `Wrappers`, `Decimal` | result shapes and decimal digit strings |

Code that changes files or records in place is a class or a method proved against a
specification function; the lemmas are about those functions. Concurrency is a step
relation, and the theorems are about every state of every run. Where a call can fail, the
environment's answers are an arbitrary script, and a power loss keeps either what
processes saw or what the last directory sync left.

Three promises turned out not to hold as they stand, and are given with the condition
under which they do:

- A version 2 cache hit removes the version 1 file without knowing whether the version 2
  file was ever synced. After a refresh whose directory sync failed (which deliberately
  keeps version 1), the next hit removes the last copy that a power loss would keep
  (`UnsyncedRefreshThenHitLosesTheEntry`). Over whole histories an entry is lost exactly by
  such a clean-up: one that unlinks version 1 while no earlier write has reported a synced
  version 2 file and no power loss has kept an unsynced one (`EntrySurvivesHistory`,
  `LossIsCareless`).
- `mkdirat` and the following `openat` of the lock are two calls. If the lock is stolen
  and made again between them, two attempts open one directory, and a run exists in which
  both hold the lock (`TwoHoldersWhenOpenStrays`). All lock theorems assume that `openat`
  opens the directory just made.
- A release check that cannot read its cache file treats it as absent and asks the network
  at once. Within the hour after an incidental refresh that is exactly when another
  incidental one happens (`IncidentalSpacing`); within the day after a saved refresh a
  check asks again exactly if it knows no cache directory or cannot read the file, and may
  ask without a cache or can write it (`DailyRefresh`).

Also worth knowing: a version 1 entry dated before year 0 (possible through a time zone
offset) is lost by its promotion (`PromotionKeepsFromYearZero`,
`EntryBeforeYearZeroIsLost`); a range that ends on 31 December 9999 is refused because the
loop steps past its last date; a quota reservation for an earlier date than the last one
makes the later date count from one again.

## Model

| member | source | states |
|---|---|---|
| PlainLockSafety.MutualExclusion | crates/krx-sdk/src/state.rs:669-842 | In every interleaving of contenders, stealers, drops and crashes at most one live attempt holds the lock, and while it does the pathname names its own, still linked directory with its own owner file |
| PlainLockSafety.Handshake | crates/krx-sdk/src/state.rs:702-725 | An attempt that holds the lock at some moment holds another directory than any that was renamed away before: "handed out" and "stolen" never happen to one directory |
| PlainLockSafety.EveryRenameMovesObserved | crates/krx-sdk/src/state.rs:1661-1690 | Every rename of a run that succeeds moves the very directory its stealer observed, to a tombstone name that was not there before |
| PlainLockSafety.FenceStays | crates/krx-sdk/src/state.rs:793-841 | A tombstone stays where it is with the claim it is named after, for the rest of the run, so no later rename under that claim succeeds |
| PlainLockSafety.OneRenamePerClaim | crates/krx-sdk/src/state.rs:793-841 | Of all stealers that ever rely on one claim, at most one rename succeeds |
| PlainLockSafety.StepKeeps | crates/krx-sdk/src/state.rs:669-842 | Every step of every attempt keeps the lock's invariant |
| PlainLockRuns.Acquire | crates/krx-sdk/src/state.rs:669-731 | From any state in which the pathname is free an attempt can create and hold the lock, changing nothing else |
| PlainLockRuns.Release | crates/krx-sdk/src/state.rs:984-1008 | From any state in which an attempt holds the lock it can drop it: the pathname is free again and the directory is gone, nothing else changes |
| PlainLockRuns.StrangerIsLeft | crates/krx-sdk/src/state.rs:984-1008 | A drop that cannot read the owner, or finds another one, touches nothing |
| PlainLockRuns.GiveWay | crates/krx-sdk/src/state.rs:702-725 | A creator that finds a claim in its directory, or another directory at the pathname, takes its owner file back and does not hold the lock |
| PlainLockRuns.ClaimedIsNotHandedOut | crates/krx-sdk/src/state.rs:702-714 | A creator that has published its owner and then sees a claim is not handed the lock by its next step |
| PlainLockRuns.LiveIsLeftAlone | crates/krx-sdk/src/state.rs:781-795 | A stealer that saw a live owner or a live claim moves nothing and changes nothing |
| PlainLockRuns.Withdraw | crates/krx-sdk/src/state.rs:797-815 | A stealer that finds a change since its observation takes its own claim back and moves nothing |
| PlainLockRuns.ChangedStops | crates/krx-sdk/src/state.rs:797-815 | A stealer whose check fails goes on to no other check and no rename |
| PlainLockRuns.FailedMoveWithdraws | crates/krx-sdk/src/state.rs:823-842 | A stealer whose rename fails takes its own claim back, unless the lock has been moved under it |
| PlainLockRuns.MovedLockKeepsItsClaim | crates/krx-sdk/src/state.rs:823-842 | After an error that follows a successful move the claim stays with the tombstone |
| PlainLockRuns.StealOnDeadClaim | crates/krx-sdk/src/state.rs:784-842 | A stealer that died after claiming does not block the lock: the next one moves the directory aside under the claim it left |
| PlainLockRuns.Steal | crates/krx-sdk/src/state.rs:766-842 | From any state in which the lock's owner is dead and unclaimed a stealer can move it aside, changing nothing else |
| PlainLockRuns.TwoHoldersWhenOpenStrays | crates/krx-sdk/src/state.rs:683-697 | A complete run from the initial state in which two live attempts hold the lock because `openat` opened a directory somebody else had made |
| Quota.ReadMeans | crates/krx-sdk/src/quota.rs:220-272 | A file is accepted exactly if it is absent or valid in either version, and reads as the counts it holds, those of a version 0 file as the reader's own |
| Quota.WriteReadsBack | crates/krx-sdk/src/quota.rs:151-199 | What a reservation writes is valid and is read back unchanged by every credential |
| Quota.WriteCountsOne | crates/krx-sdk/src/quota.rs:151-199 | A reservation is refused exactly at the limit; otherwise it adds one to this credential and date, leaves the others of that date alone and forgets other dates |
| Quota.DecideExactly | crates/krx-sdk/src/quota.rs:161-183 | A reservation is at the limit exactly at 10,000 requests of this credential and date, and there is no room exactly if 10,000 other credentials are counted on the date and this one is not |
| Quota.FingerprintIsDigest | crates/krx-sdk/src/credential.rs:414-421 | The fingerprints accepted are exactly the 64-digit prints of 32-byte digests |
| Quota.QuotaFile.Reserve | crates/krx-sdk/src/quota.rs:150-204 | When one reservation under the lock succeeds, which error it gives otherwise, and the stored file, for every fault: a granted count is the stored one, an error changes the file only by a committed write |
| Quota.GoingBackRepeatsACount | crates/krx-sdk/src/quota.rs:170-173 | Reserving for an earlier date in between makes a later date's count start again at one |
| QuotaRuns.DistinctCounts | crates/krx-sdk/src/quota.rs:109-204 | Over any run of concurrent reservations with crashes anywhere, in date order: grants for one credential and date carry strictly rising counts, their number is at most the limit and, for the current date, at most the stored count, which is within the limit |
| QuotaRuns.RefusedOnlyAtLimit | crates/krx-sdk/src/quota.rs:161-168 | A call is told it is at the limit only if the file then holds the limit for its credential and date |
| QuotaRuns.EveryWriteCounts | crates/krx-sdk/src/quota.rs:190-199 | The file changes only under the lock, only to a valid state, and by exactly one more request for the caller |
| QuotaRuns.UndisturbedCallIsGranted | crates/krx-sdk/src/quota.rs:150-204 | A holder below the limit whose steps all succeed is granted the next count, and that count is stored |
| QuotaRuns.GrantsComeFromWrites | crates/krx-sdk/src/quota.rs:190-203 | In every run a count is granted only by the directory sync of the write that stored it |
| QuotaRuns.CallAtLimitIsRefused | crates/krx-sdk/src/quota.rs:161-168 | A holder at the limit is told so without a write |
| QuotaRuns.ReturnedCallDrops | crates/krx-sdk/src/quota.rs:161-204 | A call that has its answer may drop the lock in every state |
| QuotaRuns.StepKeeps | crates/krx-sdk/src/quota.rs:109-204 | Every step of every call keeps the combined invariant of lock, file and grants |
| AtomicWrite.AllOrNothing | crates/krx-sdk/src/state.rs:354-421 | At every moment of a replacement a reader, and whoever looks after a power loss, sees the old content or all of the new one |
| AtomicWrite.OutcomeMeans | crates/krx-sdk/src/state.rs:354-421 | Success means the new content survives every power loss; an uncommitted error means nothing changed; a committed one means it is visible and not yet synced |
| AtomicWrite.Folder.Replace | crates/krx-sdk/src/state.rs:354-421 | The program passes through exactly the states those two lemmas speak of and reports their outcome |
| AtomicWrite.TemporaryIsAnotherName | crates/krx-sdk/src/state.rs:1079-1088 | The temporary is a hidden name with its own ending, never the name it will replace, and another one for every nonce |
| CacheEntry.RoundTrip | crates/krx-sdk/src/cache.rs:521-587 | A written entry is read back with equal rows, its time cut to milliseconds, stale exactly from the tolerated age on; it is refused exactly if its year does not print with four digits or the cut moved it past the allowed skew |
| CacheEntry.DecodesExactly | crates/krx-sdk/src/cache.rs:1153-1245 | A file of either version decodes to an entry exactly if it is that entry's own text with the key's identity, with rows of the contract's fields, of a day that is over in Korea and a time at most five minutes ahead; stale exactly from the tolerated age on |
| CacheEntry.HistoricalMeans | crates/krx-sdk/src/cache.rs:1334-1360 | A date is historical exactly from the Korean midnight that ends it |
| CacheEntry.WrittenIsRead | crates/krx-sdk/src/cache.rs:1186-1245 | From 1970 on whatever the writer accepted every later reader accepts |
| CacheSafety.WrittenIsFound | crates/krx-sdk/src/cache.rs:521-587 | A read of the store after a write that went through is a version 2 hit with the same rows and the cut time, under the same exact condition |
| CacheEntry.RowsRoundTrip | crates/krx-sdk/src/cache.rs:1247-1253 | Rows survive encoding exactly if they have the contract's fields |
| CacheEntry.PromotionKeepsGeneration | crates/krx-sdk/src/cache.rs:153-161 | A promoted entry is the same refresh generation as the version 1 entry it came from, in spite of the cut |
| CacheEntry.GenerationMeans | crates/krx-sdk/src/cache.rs:153-161 | From 1970 on, two entries are one generation exactly if they have the same rows and were fetched in the same millisecond |
| CacheEntry.CalendarConstants | crates/krx-sdk/src/cache.rs:1334-1360 | The day numbers used for "historical in Korea" agree with the civil calendar |
| CacheEntry.InstantConstants | crates/krx-sdk/src/cache.rs:1312-1332 | The first four-digit year and the bounds of the instants that can be held, by civil date |
| CacheStore.CacheFiles.Read | crates/krx-sdk/src/cache.rs:226-298 | A read with or without quarantine returns what the specification says and passes through its states |
| CacheStore.CacheFiles.WriteV2 | crates/krx-sdk/src/cache.rs:521-587 | Skipped, durable, committed or refused, with the states the two files pass through |
| CacheStore.CacheFiles.PromoteV1 | crates/krx-sdk/src/cache.rs:589-613 | The version 1 file is taken away only after a durable version 2 write |
| CacheStore.CacheFiles.WriteAfterRefresh | crates/krx-sdk/src/cache.rs:505-519 | The write of a refreshed entry and the removal of the superseded file |
| CacheStore.CacheFiles.DropLegacy | crates/krx-sdk/src/client.rs:840-871 | A version 2 hit reads and removes the version 1 file |
| CacheStore.CacheFiles.TakeV1 | crates/krx-sdk/src/state.rs:277-342 | A file is removed or renamed only while it is what was observed; what is left when a call of the removal fails |
| CacheStore.SurvivesMeans | crates/krx-sdk/src/cache.rs:521-613 | The survival predicate means: after every power loss a valid entry is on disk |
| CacheSafety.InvalidV2NeverHides | crates/krx-sdk/src/cache.rs:226-298 | A valid version 1 entry behind an invalid version 2 file is found exactly unless a file cannot be read or the invalid one refuses to be moved |
| CacheSafety.ReadMeans | crates/krx-sdk/src/cache.rs:226-298 | What a read answers: version 2 before version 1, a miss exactly if neither file is there, an entry exactly if one is valid, an error exactly if a file on the way cannot be read or moved aside |
| CacheSafety.QuarantineMovesInvalid | crates/krx-sdk/src/cache.rs:226-298 | A probe changes nothing; a quarantining read whose calls work takes out exactly the invalid files it looked at |
| CacheSafety.ReadingLosesNothing | crates/krx-sdk/src/cache.rs:226-298 | Reading and quarantining keep every entry that would have survived |
| CacheSafety.PromotionIsLossless | crates/krx-sdk/src/cache.rs:589-613 | At every moment of a promotion every power loss leaves the version 1 file as it was or the complete version 2 file with its rows |
| CacheSafety.PromotedIsValid | crates/krx-sdk/src/cache.rs:589-613 | Both are valid for every later reader and are one refresh generation |
| CacheSafety.PromotionMoves | crates/krx-sdk/src/cache.rs:589-613 | A promotion whose calls all work leaves the synced version 2 file alone and reports it |
| CacheSafety.PromotionReports | crates/krx-sdk/src/cache.rs:589-613 | A promotion reports true exactly if it took the version 1 file away, and false exactly if it left it for one of three reasons |
| CacheSafety.RefreshIsLossless | crates/krx-sdk/src/cache.rs:505-519 | A refresh, however it fails, leaves a valid entry after any power loss if there was one |
| CacheSafety.WriteMeans | crates/krx-sdk/src/cache.rs:521-587 | When a write is durable, visible but not synced, or skipped |
| CacheSafety.RefreshSupersedes | crates/krx-sdk/src/cache.rs:505-519 | A refresh whose calls all work leaves the synced version 2 file and no version 1 file, valid or not |
| CacheSafety.RefreshReports | crates/krx-sdk/src/cache.rs:505-519 | What a refresh reports about the two files |
| CacheSafety.CleanupRemoves | crates/krx-sdk/src/client.rs:840-871 | A clean-up whose calls all work takes the version 1 file away and reports whether it was valid |
| CacheSafety.CleanupKeepsOnlySyncedV2 | crates/krx-sdk/src/client.rs:840-871 | Once a version 2 hit has unlinked the version 1 file, whether or not that could be synced, an entry survives every power loss exactly if the version 2 file had been synced; before that nothing is lost |
| CacheSafety.UnsyncedRefreshThenHitLosesTheEntry | crates/krx-sdk/src/client.rs:840-871 | The run in which it had not: refresh with a failed directory sync, hit, power loss, nothing left |
| CacheRuns.ReportsTell | crates/krx-sdk/src/cache.rs:521-587 | In every history the outcomes the writes reported, and what power losses kept, tell exactly whether a valid version 2 entry is there and whether it is synced |
| CacheRuns.EntrySurvivesHistory | crates/krx-sdk/src/client.rs:809-874 | Over any history of reads, promotions, refreshes, clean-ups, process deaths and power losses a durable entry survives throughout exactly if no clean-up unlinks behind a version 2 file that, by those reports, is not synced |
| CacheRuns.LossIsCareless | crates/krx-sdk/src/client.rs:840-871 | A step of a history loses the entry exactly if it is such a clean-up |
| CacheRuns.PromotionKeepsFromYearZero | crates/krx-sdk/src/cache.rs:1312-1332 | A promotion keeps the entry exactly if its time still prints as a four-digit year |
| CacheRuns.EntryBeforeYearZeroIsLost | crates/krx-sdk/src/cache.rs:1312-1332 | An accepted version 1 entry, one hour before year 0, whose promotion leaves nothing that is ever valid |
| Coordination.CoordinatedQuery | crates/krx-sdk/src/client.rs:750-807 | The loop ends with the first pass that decides, and publishes a result exactly when it came from the network |
| Coordination.AnswersAreAcceptable | crates/krx-sdk/src/client.rs:1086-1103 | A cached answer is fresh for Prefer and of another generation than the baseline for Refresh; the network is asked only under the lease and only when the cached entry was not acceptable |
| Coordination.PreferAnswers | crates/krx-sdk/src/client.rs:1077-1103 | A `Prefer` pass answers from a fresh hit of either version under the lease and from a fresh version 2 hit without it; otherwise it asks the network or polls on |
| Coordination.RefreshAnswers | crates/krx-sdk/src/client.rs:1077-1103 | A `Refresh` pass answers from a version 2 hit without a baseline or of another generation, and from nothing else in the cache |
| Coordination.TroubleEnds | crates/krx-sdk/src/client.rs:750-807 | A pass that is out of time, or meets an error of the lease or of the cache, ends the call with an error |
| Coordination.QueryUntil | crates/krx-sdk/src/client.rs:541-605 | How a call begins under each policy: when the first probe is the answer, when the loop is entered and with which baseline |
| Coordination.RefreshIgnoresPromotedBaseline | crates/krx-sdk/src/client.rs:750-807 | A refresh pass that meets the promotion of its version 1 baseline goes to the network if it has the lease and polls on if somebody else does |
| Coordination.RefreshNeverReturnsItsBaseline | crates/krx-sdk/src/client.rs:750-807 | Over a whole call, whoever promotes the baseline and whenever, the answer is never the promoted file |
| Prune.Survivors | crates/krx-sdk/src/cache.rs:413-469 | An entry stays exactly if it is among the first `max_entries`, newest first, version 2 first, then by path, of those not older than the cutoff; taking the two removal sets apart is ageing first and capping second |
| Prune.RemovedIsTheRest | crates/krx-sdk/src/cache.rs:930-951 | The removed entries and bytes are exactly those of the entries that do not stay |
| Prune.CapKeepsTheBest | crates/krx-sdk/src/cache.rs:438-469 | Whatever is removed is older than everything that stays or, fetched at the same time, a version 1 entry where a version 2 entry stays, or later by path |
| Prune.CapIsUsed | crates/krx-sdk/src/cache.rs:438-469 | As many entries stay as the cap allows and are young enough |
| Prune.CacheDirectory.Prune | crates/krx-sdk/src/cache.rs:413-469 | The files left, artifacts gone, and the counts returned, and that nothing changes when the cap is over the batch maximum |
| Prune.CacheDirectory.Delete | crates/krx-sdk/src/cache.rs:930-951 | Exactly the files that are in the set and unchanged since the scan are removed and counted |
| Prune.SortSorts | crates/krx-sdk/src/cache.rs:438-452 | The order used is a strict order, and sorting by it permutes the entries |
| Approval.MigrationIsIdempotent | crates/krx-sdk/src/approval.rs:254-276 | A migrated configuration is accepted, migrates to itself and counts as unchanged; every other field is kept |
| Approval.UpgradeReadsBack | crates/krx-sdk/src/approval.rs:548-563 | An upgraded configuration is classified as version 1 with exactly the rows put into it |
| Approval.MigrationKeepsApprovals | crates/krx-sdk/src/approval.rs:254-276 | A migration keeps every approval: all status answers are as before, and the rows are counted exactly if they were not in a version 1 file already |
| Approval.WhatIsRefused | crates/krx-sdk/src/approval.rs:298-376 | Another version, a credential or missing rows in a version 1 file, an unknown category, an invalid row and mixed rows are refused |
| Approval.ValidForms | crates/krx-sdk/src/approval.rs:398-443 | The observations that are valid, each with its lifetime and its error text |
| Approval.ContainsMeans | crates/krx-sdk/src/approval.rs:398-443 | The credential an error text must not hold is looked for anywhere in it |
| Approval.RecordMerges | crates/krx-sdk/src/approval.rs:196-227 | A recorded observation is what the next status call reports; other categories and other fields are unchanged |
| Approval.RecordsExactly | crates/krx-sdk/src/approval.rs:196-227 | An observation is recorded exactly if it is valid, the configuration is accepted and no legacy credential is left in it |
| Migration.Stores.MigrateLegacy | crates/krx-sdk/src/credential.rs:172-273 | The migration passes through exactly the worlds of the specification, for every failure of a call before or after it took effect |
| Migration.Stores.MoveIntoKeychain | crates/krx-sdk/src/credential.rs:224-273 | The keychain half with its verification, rollback and the replacement of the configuration |
| Migration.Stores.RollbackCreated | crates/krx-sdk/src/credential.rs:291-306 | A rollback reports success exactly if the created secret is known to be gone |
| Migration.Stores.SetCredential | crates/krx-sdk/src/credential.rs:144-164 | Replacing the credential passes through exactly the worlds of the specification |
| MigrationSafety.SecretNeverLost | crates/krx-sdk/src/credential.rs:172-273 | At every step, error and power loss the secret is in the keychain or in the configuration |
| MigrationSafety.FailuresRestore | crates/krx-sdk/src/credential.rs:224-273 | Every failure but a failed rollback and an unsynced replacement leaves both stores as they were; a conflict touches neither |
| MigrationSafety.TakesTheSecret | crates/krx-sdk/src/credential.rs:172-222 | A credential is taken exactly if it is visible ASCII text without blanks and the rest of the configuration is accepted |
| MigrationSafety.InvalidSecretStops | crates/krx-sdk/src/credential.rs:172-222 | An invalid credential stops the migration before anything is touched |
| MigrationSafety.RollbackMeans | crates/krx-sdk/src/credential.rs:291-306 | A rollback that reports success leaves no such secret; another secret and the configuration are never touched |
| MigrationSafety.MigrationMovesEverything | crates/krx-sdk/src/credential.rs:224-273 | An undisturbed migration ends in the goal, which has the approvals and every other field of the source, and reports their number |
| MigrationSafety.MigrationWithoutSecret | crates/krx-sdk/src/credential.rs:172-222 | Without a credential it only brings the approvals to version 1, and writes nothing if they are |
| MigrationSafety.NothingToMigrate | crates/krx-sdk/src/credential.rs:172-194 | Without a configuration file nothing is touched and nothing is reported as moved |
| MigrationSafety.RerunReachesTheGoal | crates/krx-sdk/src/credential.rs:172-273 | From whatever a power loss left, running again without failures ends in the same final state |
| MigrationSafety.AnyNumberOfCrashes | crates/krx-sdk/src/credential.rs:172-273 | However often a migration fails or is cut off by a power loss, the secret can be found, and the first undisturbed run ends in the one final state |
| MigrationSafety.ApprovalsGoFirst | crates/krx-sdk/src/credential.rs:144-164 | Whenever the keychain holds a new credential, the approvals of the old one are gone, also after a power loss |
| MigrationSafety.RotationEnds | crates/krx-sdk/src/credential.rs:144-164 | An undisturbed rotation succeeds exactly if the configuration is accepted and holds no credential; it keeps every other field |
| MigrationSafety.RotationAnswers | crates/krx-sdk/src/credential.rs:144-164 | The answer of a rotation whatever fails: it succeeds exactly if the configuration is accepted, its replacement is durable, and the keychain then reads back the new credential |
| Rational.ComputeGcd | crates/krx-sdk/src/adjustment.rs:49-58 | The loop computes the common divisor the next two lemmas describe |
| Rational.GcdDivides | crates/krx-sdk/src/adjustment.rs:49-58 | It divides both numbers |
| Rational.GcdIsGreatest | crates/krx-sdk/src/adjustment.rs:49-58 | Every common divisor divides it |
| Rational.ReduceMeaning | crates/krx-sdk/src/adjustment.rs:60-69 | A ratio is accepted exactly if both parts are positive, and is then the same number in lowest terms |
| Rational.SameRatio | crates/krx-sdk/src/adjustment.rs:60-69 | Lowest terms are unique: reduced ratios of one number are equal |
| Rational.MultiplyMeaning | crates/krx-sdk/src/adjustment.rs:78-85 | The product of reduced ratios never fails and is exact; the cross-reduction alone leaves it in lowest terms |
| PriceText.ReadsWhatIsPrinted | crates/krx-sdk/src/adjustment.rs:87-133 | A price is read exactly if it is the plain or the comma-grouped print of a number, and as that number |
| PriceText.ReadsSigned | crates/krx-sdk/src/adjustment.rs:107-127 | The same with a minus sign |
| PriceText.RateIsHundredths | crates/krx-sdk/src/adjustment.rs:135-158 | A rate is accepted exactly if it is digits, a point and two digits after an optional sign, and is read in hundredths |
| Adjustment.NearestHalfUp | crates/krx-sdk/src/adjustment.rs:165-170 | The rounded product is the nearest integer, the upper one of two equally near |
| Adjustment.SignedNearest | crates/krx-sdk/src/adjustment.rs:160-163 | The signed rounding is the nearest integer, halves away from zero |
| Adjustment.RoundingGrows | crates/krx-sdk/src/adjustment.rs:165-170 | Rounding keeps the order of prices |
| Adjustment.SecondCheck | crates/krx-sdk/src/adjustment.rs:384-397 | The second price check rejects a row exactly if its low, or the close of a suspended row, rounds to zero |
| Adjustment.OhlcMeans | crates/krx-sdk/src/adjustment.rs:172-196 | Prices are accepted exactly if low and high enclose positive open and close, or if only the close is positive and nothing was traded |
| Adjustment.ParseRowMeans | crates/krx-sdk/src/adjustment.rs:198-287 | A row is read exactly if its fields, taken by name, describe a day of the security, and is read as that day |
| Adjustment.ParsedIsGood | crates/krx-sdk/src/adjustment.rs:198-287 | A parsed row has positive close and reference price, valid prices and a valid date |
| Adjustment.ExplainedMeans | crates/krx-sdk/src/adjustment.rs:346-371 | The check against listed shares after a suspension does not depend on the ratio being reduced |
| Adjustment.FactorClosedForm | crates/krx-sdk/src/adjustment.rs:337-382 | Every factor is the product of the later reference-to-close ratios, in lowest terms |
| Adjustment.ReturnPreserved | crates/krx-sdk/src/adjustment.rs:375-382 | Across every boundary the unrounded adjusted close equals the adjusted reference price, so each day's return is close over reference |
| StockHistory.AdjustStockRows | crates/krx-sdk/src/adjustment.rs:303-433 | The whole function with its loops computes the specified result, error cases included |
| StockHistory.AdjustsExactly | crates/krx-sdk/src/adjustment.rs:303-433 | A history is adjusted exactly if it is not empty, every row describes a day of one security, name and market, dates rise, moves after suspensions are explained and no price rounds to zero; it is incomplete only if empty |
| StockHistory.OutputFields | crates/krx-sdk/src/adjustment.rs:384-405 | Every output row is its raw row with the factor and, field by field, the rounded product of that price and the factor; the as-of date is the last row's |
| StockHistory.ReportedTransitions | crates/krx-sdk/src/adjustment.rs:337-433 | The transitions an adjustment reports are exactly those boundaries, in strictly rising date order |
| StockHistory.FindBoundaries | crates/krx-sdk/src/adjustment.rs:337-373 | The boundary loop accepts exactly the explained histories and lists ratios and transitions |
| StockHistory.Accumulate | crates/krx-sdk/src/adjustment.rs:375-382 | The backward loop fills in the factors and never fails |
| StockHistory.TransitionsExact | crates/krx-sdk/src/adjustment.rs:337-373 | The transitions are exactly the boundaries whose reference price differs from the previous close, with their dates, prices and reduced ratio |
| StockHistory.TransitionsInOrder | crates/krx-sdk/src/adjustment.rs:337-373 | They are listed in strictly rising date order |
| StockHistory.UntouchedSinceLastTransition | crates/krx-sdk/src/adjustment.rs:375-397 | From the last transition on the factor is one and adjusted prices are the raw ones |
| StockHistory.OlderRowsChangeNothing | crates/krx-sdk/src/adjustment.rs:303-433 | Prepending older rows changes no later adjusted row and only adds earlier transitions; if the longer history is accepted so is the shorter |
| CivilDate.TextRoundTrip | crates/krx-sdk/src/request.rs:152-156 | Every supported date has one text, and every accepted text is that of its date |
| CivilDate.TextOrderIsChronological | crates/krx-sdk/src/request.rs:100-117 | The derived order of date texts is chronological order |
| CivilDate.OrderIsDayOrder | crates/krx-sdk/src/request.rs:187-214 | Comparing dates compares their day numbers, and a day number names one date |
| CivilDate.NextIsOneLater | crates/krx-sdk/src/calendar.rs:228-233 | The next date is one day later and supported for all dates but the last |
| CivilDate.MonthLengths | crates/krx-sdk/src/request.rs:152-156 | Odd months before August and even ones from August on have 31 days; February has 29 in years divisible by 4, among centuries by 16 |
| CivilDate.WeekendMeans | crates/krx-sdk/src/calendar.rs:111-113 | The weekend days are those a whole number of weeks, or that and a day, away from Saturday 1 January 2000 |
| Calendar.RangeIsChronological | crates/krx-sdk/src/request.rs:187-214 | A range is accepted exactly if it is between one and 10,000 days long |
| Calendar.YearEndClosure | crates/krx-sdk/src/calendar.rs:115-131 | The loop ends, after at most two steps, on the specified date |
| Calendar.YearEndIsLastWeekday | crates/krx-sdk/src/calendar.rs:115-131 | That date is the last weekday of its year |
| CalendarMeaning.ClosedMeans | crates/krx-sdk/src/calendar.rs:133-202 | A date is non-trading exactly if it is a weekend day, is listed in its covered year, or lies after all covered years on a fixed holiday or the last weekday of its year; trading exactly if otherwise and covered |
| CalendarMeaning.HolidayMeans | crates/krx-sdk/src/calendar.rs:133-147 | The fixed holidays by month and day, two of them from 2013 and 2026 on |
| CalendarMeaning.CoveredMeans | crates/krx-sdk/src/calendar.rs:149-202 | A year is covered exactly if it is the number of a snapshot key and has four digits itself |
| Calendar.UnverifiedAreUncovered | crates/krx-sdk/src/calendar.rs:149-242 | The undecided dates of a selection are exactly those asked for outside the covered years; without fallback years there are none, and every date asked for is a weekday that the snapshot does not list as closed |
| Calendar.SelectRange | crates/krx-sdk/src/calendar.rs:204-242 | The dates listed are consecutive from first to last, split by status; it fails exactly for a range that ends on the last supported date |
| Calendar.EveryDateOnce | crates/krx-sdk/src/calendar.rs:204-242 | So listed, each civil date of the range occurs exactly once |
| Calendar.PickSplits | crates/krx-sdk/src/calendar.rs:218-227 | Each listed date is either asked for or skipped, never both |
| CalendarMeaning.SelectionMeans | crates/krx-sdk/src/calendar.rs:204-242 | Which dates of a range are skipped, asked for and undecided, in terms of closures and covered years |
| CalendarMeaning.PickRises | crates/krx-sdk/src/calendar.rs:204-242 | Each of the lists is in date order |
| Calendar.ResolveRecent | crates/krx-sdk/src/calendar.rs:244-281 | The result is the latest verified trading date before today, with exactly the undecided dates and the uncovered years passed on the way; it fails exactly if there is none within 370 days, with the error of an invalid date if those reach behind the first supported date |
| RangeReduce.Reduce | crates/krx-sdk/src/range.rs:112-189 | The loop computes the specified result; mismatched dates and call-wide errors are refused first |
| RangeReduce.Adjusted | crates/krx-sdk/src/range.rs:39-110 | The adjustment step in all its branches |
| RangeReduce.EachDateOfTheRangeOnce | crates/krx-sdk/src/range.rs:112-189 | From range to result: each civil date of the range is in exactly one place among the succeeded, failed and skipped dates, and no other date is in any |
| RangeReduce.DatesConserved | crates/krx-sdk/src/range.rs:112-189 | Succeeded, failed and skipped dates together are the requested ones; provenance is kept for exactly the fetched dates; fetched and failed days add up to the trading days |
| RangeReduce.InOutcomeOrder | crates/krx-sdk/src/range.rs:140-160 | Rows, dates and failures are collected in the order of the outcomes |
| RangeReduce.OneOutcome | crates/krx-sdk/src/range.rs:17-25 | What a single outcome contributes, and the four kinds of error that concern the whole call |
| RangeReduce.OutcomeIsPlaced | crates/krx-sdk/src/range.rs:140-160 | An answer with rows is a success, one without is skipped, and an error of one date is a failure with that error |
| RangeReduce.ProvenanceIsItsOwn | crates/krx-sdk/src/range.rs:140-160 | Every fetched date keeps the provenance of its own answer |
| RangeReduce.StateMeans | crates/krx-sdk/src/completeness.rs:11-31 | The four states in terms of the answers |
| RangeReduce.FailedFetchedNothing | crates/krx-sdk/src/completeness.rs:11-31 | A range fails exactly if some date failed and none succeeded or was skipped; it then fetched nothing, and it carries an error exactly then |
| RangeReduce.AdjustedMeansComplete | crates/krx-sdk/src/range.rs:39-110 | Adjustment changes no date's outcome and happens exactly for a complete range in which every fetched date shows the security and whose history is accepted; otherwise the range fails with the named error, or stays as it is if it had failed or was empty |
| RangeReduce.OfSecurityMeans | crates/krx-sdk/src/range.rs:74-83 | The rows of the security are those that carry its standard or short code, in their order |
| RangeReduce.ShownMeans | crates/krx-sdk/src/range.rs:84-95 | A date shows the security exactly if such a row bears it |
| RangeReduce.PrimaryErrorMeans | crates/krx-sdk/src/completeness.rs:33-49 | The reported error is the first of the most urgent ones in the fixed order of kinds; there is one exactly if an error is not of an invalid request, and for call-wide errors always |
| ReleaseCheck.ReleaseCache.RunCheck | crates/krx-cli/src/release_check.rs:335-385 | One check goes to the network and leaves the cache file as specified |
| ReleaseCheck.ReleaseCache.Refresh | crates/krx-cli/src/release_check.rs:387-433 | The record and the file after the network answered, failed or the process died |
| ReleaseCheck.AsksExactly | crates/krx-cli/src/release_check.rs:335-458 | When a check asks: what it may read holds no evidence of the last 24 hours and, unless it is explicit, no attempt of the last hour; anything dated ahead does not count |
| ReleaseCheck.AsksAgain | crates/krx-cli/src/release_check.rs:335-458 | In every run from an empty cache, once the hour after an attempt and the day after a success are over, the next enabled check that is explicit or can save asks again |
| ReleaseCheck.IncidentalSpacing | crates/krx-cli/src/release_check.rs:442-458 | Within an hour after an incidental refresh, however it ended, another one happens exactly if the cache file cannot be read but can be written |
| ReleaseCheck.DailyRefresh | crates/krx-cli/src/release_check.rs:335-433 | Within a day after a refresh whose result was saved, while the checks between could read the file, a check asks again exactly if it has no cache file to read and may ask without or can write |
| ReleaseCheck.UnreadableOnceAsksAgain | crates/krx-cli/src/release_check.rs:633-651 | One failed read makes the next check ask at once and forget the evidence |
| ReleaseVersion.ParseIsInverseOfDisplay | crates/krx-cli/src/release_check.rs:75-101 | A text parses to a version exactly if it is the version's print and the parts fit 64 bits |
| FilterParts.ExpressionIsRead | crates/krx-cli/src/args.rs:685-704 | Every expression is taken apart at the operator it was made with, whatever operators its value contains |
| FilterParts.ReadIsExpression | crates/krx-cli/src/args.rs:685-704 | Whatever is accepted is such an expression |
| FilterParts.PrintedIsRead | crates/krx-cli/src/args.rs:685-704 | Field, operator and value printed with single spaces are read back |
| FilterParts.OperatorsMean | crates/krx-cli/src/args.rs:685-704 | The operators tried are the two angle brackets and four characters followed by an equals sign; no field holds one of their characters |
| FilterParts.TrimMeans | crates/krx-cli/src/args.rs:685-704 | Trimming takes the blanks off both ends and nothing else |
| FilterParts.SpaceMeans | crates/krx-cli/src/args.rs:685-704 | The blanks are the 25 white-space code points of Unicode |

## Left out

Assumptions of the lock and of what is built on it:

- PlainLockSafety.MutualExclusion: holds for runs in which `openat` opens the directory that `mkdirat` has just made; `TwoHoldersWhenOpenStrays` is a run in which it does not.
- QuotaRuns.DistinctCounts: holds for calls that read the counter in date order; `GoingBackRepeatsACount` shows what an earlier date does.
- The lock: a dead process takes no steps, owner strings are unique, `rename` and `rmdir` fail on a directory that is not empty, an open descriptor names one directory. A power loss of the whole machine and the temporaries inside a lock directory are not part of the lock's model; a failure of a call stands for the latter.
- Liveness of the lock under contention; `Acquire` and `Steal` show that the steps can be taken when nobody interferes.
- The waiting loops around the lock, with their poll interval and deadlines.

Of files and stores:

- ReleaseCheck.IncidentalSpacing: for checks one after the other with a clock that does not go back and a cache file only they write.
- CacheSafety.UnsyncedRefreshThenHitLosesTheEntry: the conditional removal is one compare-and-act step; the source compares first and acts afterwards.
- CacheRuns.EntrySurvivesHistory: operations on one entry run one after the other, promoted entries are dated year 0 or later, and the version 2 file is settled at the start: as its last sync left it, and an entry or never one.
- MigrationSafety.RerunReachesTheGoal: the keychain answers truthfully, is durable, and nobody else writes it.
- The cache refresh lease: it is advisory (a live owner's lease may be taken after an absolute age), so it is an arbitrary answer here.
- Recognition of stale cache temporaries and leases; `Prune` takes them as given lists.
- The single-flight map in one process beyond "a shared result may be there"; a waiter may receive a result older than its request.
- Permission bits, owners, symbolic links and size limits of reads, except that an oversized cache file is never valid and never moved.
- JSON text, SHA-256 and UUIDs: a file is the value it parses to, digests are injective, nonces are unique. Instants are limited to what the timestamp library represents.

Of the rest:

- The order of checks inside one row of a price history, and error messages: all carry one code.
- The check that the calendar snapshot names its source and version; approval probes and the composite results other than ranges, which repeat the range partition.
- HTTP, scheduling, transport, watch list, Windows file handling, the Node binding, argument parsing other than filters, tables and floating-point code.
