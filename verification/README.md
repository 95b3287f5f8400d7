# Verified models of ProFTPD's accounting and buffering modules

This project models the stateful core of several ProFTPD contrib modules in Dafny and
proves what they promise about every run, every interleaving or every input:

* **mod_quotatab** with its file and SQL backends: the counted table lock, concurrent
  writes to one shared tally, the byte layout of the tally file, creation of tallies by
  concurrent logins, and the handlers that admit, charge and take back transfers.
* **mod_ban**: the slot search, the ban table as a finite map, expiry, the event list,
  and the handler that turns repeated events into bans.
* **mod_deflate**: the read buffer, the write loop and the raw byte counters.
* **mod_log_forensic**: the message ring and its dump.
* **mod_ratio**: upload/download credit.
* **mod_ifversion**: the version parser and the order of versions.

`dafny verify dfyconfig.toml` checks everything.

## How it is laid out

State the source updates in place is a class here, with methods that have the source's
loops and branches; each method is proved against a function on values, and the theorems
are about that function and its runs.

| file | about |
|---|---|
| `QuotaTypes`, `ClampedTally` | tally arithmetic and the long-run value of a byte column |
| `TableLock`, `SharedTally`, `QuotaWrite` | the table lock, processes sharing a record, one write over either backend |
| `TallyFile`, `Login` | the bytes of the table file, logins and sessions over its records |
| `TallySessions`, `TallyLocks`, `TallyKeys`, `TallyRecords`, `TallyCharges`, `TallyCollision` | logins and sessions over the bytes: cursors, byte-range locks, what the login mutex keeps, the records implemented, the charges stored, and what goes wrong |
| `SessionQuota`, `Admission`, `QuotaHandlers`, `ChargeLedger`, `DiskUsage` | what the handlers compute, what admission guarantees, the handlers, which command each charge belongs to, what the limit means for the disk |
| `SlotSearch`, `BanTable`, `BanMap` | the slot search, the ban table, the map it refines |
| `BanEvents`, `BanOnEvent`, `BanWindow` | the event list, the event handler, runs of the handler |
| `RawCounter`, `InflateRead`, `DeflateWrite` | wrapping counters, the two directions of a deflated transfer |
| `ForensicRing`, `RatioCredit` | the ring and the credit |
| `VersionText`, `VersionParser` | what version strings mean, the parser on its buffer |

## Where the code and its promise part

Each of these is proved for every input, or shown at a concrete state or run with the exact
condition under which the promise does hold.

* A tally re-read that fails is only logged, and a stale copy then overwrites the record
  (`FailedRereadLosesUpdates`, `StoreIsFaithfulIff`).
* Without the mutex two logins of one user create two records
  (`UnguardedLoginsDuplicate`; `CreateKeepsKeysIff` and `KeysUniqueIff` say when).
* A creation locks where its scan ended, writes at the end of the file and unlocks there.
  Without the mutex two creations whose scans ended at different places can write at one, so
  that one user works on at the other's record (`UnguardedCreatesCollide`,
  `CreateKeepsTagsIff`; `LocksExclude` rules it out for scans that ended at one place). If
  the end has moved since the scan, or the scan met a read error, the unlock misses and the
  session keeps another user's record locked (`FailedScanKeepsLock`, `CreationUnlocksIff`;
  `GuardedCreationsUnlock` says when it cannot happen).
* A short write counts as success: of a new record it breaks the table
  (`ShortCreateBreaksTable`), of an old one it mixes the two (`ShortWriteMixesRecord`).
* A file count above zero that is lowered past zero wraps around (`FileGuardIsExact`).
* Taking back an upload that shrank a file can carry the upload tally past a hard limit
  (`ShrinkBreachHappens`, `UploadStaysWithinIff`). Taking back an APPE lowers the file
  counts it never raised (`AppendRollbackRestoresIff`).
* A refused APPE still runs its error handler, which measures the file against a size cached
  by another command: it may charge (`DeniedAppendChargesIff`), leave the tally below what
  is on disk (`RefusedAppendUncovers`, `RefusedAppendCoveredIff`) or delete the file
  (`RefusedAppendRemovesFile`, `RefusedAppendKeepsFileIff`). A STOR refused over its
  transfer limit deletes the file of that name (`StoreAfterOverrunRemoves`,
  `RefusedStoreRemovesFile`, `RefusedStoreKeepsFileIff`).
* A session that ends during a DELE is charged for an upload exactly if the DELE had found
  its file (`ExitDuringDeleteChargesUpload`; `CutOffDeleteChargedIff` says it for every run),
  and one that ends inside a tally write is charged twice
  (`ExitInsideWriteChargesTwice`, `ChargedTwiceIff`).
* An addition to a full table with the cursor at the end never returns (`SearchEndsIff`,
  `FullListHangsNextAdd`). Names and event sources of 128 characters or more are cut when
  stored and compared whole: such a ban is never found (`AddedBanIsFoundIff`), and such a
  source is never counted while each of its events takes a further slot
  (`LongSourceNeverCounted`).
* Expiry removes same-named bans of other servers that stand before the expired one, not
  those after it (`ExpiryRemovesExactly`).
* A ban that has expired but is still in the table suppresses a new one for the event that
  meets the threshold (`ExpiredBanSuppressesNew`; `HandleEvent` has the exact condition).
* A deflated write that breaks off after its first byte sends that byte again with the next
  call (`StreamIsFaithfulIff`, `BrokenWriteRepeats`).
* A dump never writes the newest message (`NewestIsHeldBack`).
* A file of 2 GB or more is checked against a truncated size (`CheckIsSoundIff`,
  `LargeFileOverdraws`).
* The suffix `a` ranks level with the plain release although the comment above the status
  values says maintenance releases are later (`MaintenanceOrder`).

## Model

| member | source | states |
|---|---|---|
| `QuotaTypes.FileGuardIsExact` | contrib/mod_quotatab.c:1335-1371 | the guard against a file count going below zero works if and only if the decrement does not reach past a nonzero count; otherwise the count wraps |
| `ClampedTally.FileColumnIsReflectedWalk` | contrib/mod_quotatab.c:1303-1333 | after any run of increments a limited byte tally is the plain sum minus the lowest point the plain sum reached |
| `ClampedTally.LowestPoint` | contrib/mod_quotatab.c:1303-1333 | every run has such a lowest point |
| `ClampedTally.SqlColumnIsPlainSum` | contrib/mod_quotatab_sql.c:493-521 | a table that accumulates deltas holds the plain sum |
| `ClampedTally.SqlNeverExceedsFile` | contrib/mod_quotatab_sql.c:493-521 | for the same increments the delta table is never above the absolute one, and level with it if and only if the plain sum never went below zero |
| `ClampedTally.UnlimitedColumnsStandStill` | contrib/mod_quotatab.c:1303-1333 | a column without a limit does not move in either kind of table |
| `TableLock.Acquire` | contrib/mod_quotatab.c:1090-1149 | the lock is reported held if and only if some call grants it after interruptions and fewer than ten conflicts |
| `TableLock.Release` | contrib/mod_quotatab.c:1151-1177 | the unlock succeeds if and only if the first answer that is not an interruption is a success |
| `TableLock.HeldLockMatchesCounters` | contrib/mod_quotatab.c:1090-1278 | after any sequence of lock calls, failing ones included, the lock held is write if there are writers, else read if there are readers, else none |
| `TableLock.NestedReadsKeepWriteLock` | contrib/mod_quotatab.c:1090-1177 | readers nested in a writer never drop the write lock |
| `TableLock.UpgradeThenDowngrade` | contrib/mod_quotatab.c:1179-1278 | a write section entered under a read lock gives the read lock back |
| `TableLock.CountersCountCalls` | contrib/mod_quotatab.c:1090-1278 | after any sequence of lock calls, failing ones included, each counter is what it was plus the locks that succeeded minus the unlocks that did on a nonzero count |
| `TableLock.PairedCallsRestore` | contrib/mod_quotatab.c:1090-1278 | succeeding calls that pair every lock with a later unlock, nested in any way, leave the counters and the lock as they found them |
| `TableLock.QuotaTable.constructor` | contrib/mod_quotatab.c:708-760 | a table starts unlocked |
| `TableLock.QuotaTable.RLock` | contrib/mod_quotatab.c:1090-1149 | asks the system only when no lock is held; a call that succeeds counts one reader more, one that fails none; counters and held lock move together or not at all |
| `TableLock.QuotaTable.RUnlock` | contrib/mod_quotatab.c:1151-1177 | the last reader outside a write section gives the lock up; a failed unlock changes nothing |
| `TableLock.QuotaTable.WLock` | contrib/mod_quotatab.c:1179-1237 | the first writer takes or upgrades the lock, later ones only count |
| `TableLock.QuotaTable.WUnlock` | contrib/mod_quotatab.c:1239-1278 | the last writer unlocks, or downgrades when readers remain; a failed call changes nothing |
| `SharedTally.LocksStaySound` | contrib/mod_quotatab.c:1280-1397 | no step of any process lets two processes hold conflicting locks |
| `SharedTally.InvAlongRun` | contrib/mod_quotatab.c:1280-1397 | the invariant of the sharing protocol holds after every interleaving |
| `SharedTally.NoUpdateIsLost` | contrib/mod_quotatab.c:1280-1397 | in every interleaving the stored record is the initial one charged with the committed increments in order, unless a process stored over a failed re-read; the committed increments are those the callers asked for, each under its caller's limit |
| `SharedTally.GoodReadsLoseNothing` | contrib/mod_quotatab.c:1280-1397 | with every re-read succeeding, in any interleaving and whatever locks and stores fail, the record is the initial one charged with exactly the increments of those calls whose store came through, in the order of the stores |
| `SharedTally.LogIsWhatWasAsked` | contrib/mod_quotatab.c:1280-1304 | in every interleaving the log is, in the order of the stores, what the write calls asked for, read off the calls and stores alone |
| `SharedTally.WriteSectionsExclude` | contrib/mod_quotatab.c:1280-1397 | two processes are never in their write sections together |
| `SharedTally.ReadsExcludeWrites` | contrib/mod_quotatab.c:762-793 | nor is one process reading the record while another is in its write section |
| `SharedTally.ReadIsCurrent` | contrib/mod_quotatab.c:762-793 | a read before a command that succeeds gives the process the stored record, which is still that when the read lock is given up, whatever the others do |
| `SharedTally.NoLockOutlivesItsCall` | contrib/mod_quotatab.c:1280-1397 | while unlock calls succeed a process holds exactly the lock the point it is at calls for, in every interleaving; between its calls it holds none and has counted none |
| `SharedTally.FailedRereadLosesUpdates` | contrib/mod_quotatab.c:1288-1301 | a run with one failed re-read in which the record loses an update |
| `SharedTally.StoreAfterReread` | contrib/mod_quotatab.c:1288-1388 | from a re-read on, in every interleaving, nobody else touches the record before the store, which keeps it faithful if and only if the tally gone on with and the record charge alike |
| `SharedTally.StoreIsFaithfulIff` | contrib/mod_quotatab.c:1288-1388 | a process at its re-read loses nothing for any increment and in any interleaving, if and only if the re-read succeeds or its copy already equals the record |
| `SharedTally.SharedColumnIsReflectedWalk` | contrib/mod_quotatab.c:1280-1397 | in every interleaving each byte column of the shared tally is the plain sum of that column's committed increments minus its lowest point |
| `SharedTally.FileColumnIsPlainSum` | contrib/mod_quotatab.c:1335-1371 | each limited file column is the plain sum of its increments as long as that sum stays in the range of the counter |
| `SharedTally.UnlimitedColumnStands` | contrib/mod_quotatab.c:1303-1371 | a column without a limit does not move, bytes and files alike |
| `QuotaWrite.TallySession.Refresh` | contrib/mod_quotatab.c:762-793 | a read nested in a write section leaves the lock as it was and the tally equal to the stored one, or untouched on failure |
| `QuotaWrite.TallySession.Write` | contrib/mod_quotatab.c:1280-1397 | without the lock nothing changes; with it the tally is the freshest copy plus the clamped increment, stored whole or as deltas, the next reader of a file table sees it, and the lock counters are back unless the unlock failed |
| `QuotaWrite.TallySession.Add` | contrib/mod_quotatab.c:1303-1371 | only limited columns move, and the deltas are their unclamped increments |
| `QuotaWrite.BackendsAgreeIff` | contrib/mod_quotatab_sql.c:444-549 | the same commits on both backends: each SQL byte column is never above the file one, level if and only if the running sum stayed at or above zero |
| `QuotaWrite.SqlRowIsPlainSum` | contrib/mod_quotatab_sql.c:493-521 | every column of the SQL row, bytes and files, is the initial one plus the sum of its deltas, whatever the limits of the writes |
| `TallyFile.FieldOffsets` | contrib/mod_quotatab_file.c:345-410 | each field of a record stands at its own offset of the 121 bytes |
| `TallyFile.ScatterGather` | contrib/mod_quotatab_file.c:345-410 | reading back the eight segments written for a record gives the record |
| `TallyFile.GatherScatter` | contrib/mod_quotatab_file.c:192-257 | writing the eight segments read gives the same 121 bytes |
| `TallyFile.WellFormedScan` | contrib/mod_quotatab_file.c:121-190 | in a well-formed table a scan sees exactly its records and ends at the end of the file |
| `TallyFile.RecordsAreDisjoint` | contrib/mod_quotatab_file.c:427-448 | locks on different records never cover a common byte |
| `TallyFile.WriteReplacesOneRecord` | contrib/mod_quotatab_file.c:345-410 | a full write at a record's position replaces that record and no other, and the file stays a table |
| `TallyFile.ShortWriteMixesRecord` | contrib/mod_quotatab_file.c:345-410 | a short write of an existing record, taken for success, leaves a table in which that record is new in front and old behind; it is the intended one if and only if the two agree on what was not written |
| `TallyFile.CreateAppendsRecord` | contrib/mod_quotatab_file.c:53-119 | a full creation adds one record at the end and changes no other |
| `TallyFile.ShortCreateBreaksTable` | contrib/mod_quotatab_file.c:53-119 | the table stays well formed if and only if the whole record was written |
| `TallyFile.FileTable.Read` | contrib/mod_quotatab_file.c:192-257 | the cursor is back where it was; the record is filled from the file as far as it reaches; at the end of the file nothing is filled and the call fails |
| `TallyFile.FileTable.Write` | contrib/mod_quotatab_file.c:345-410 | the cursor is back where it was; one record of the table changes, as far as bytes were written |
| `TallyFile.FileTable.Create` | contrib/mod_quotatab_file.c:53-119 | the record is appended and the cursor is left at its start |
| `TallyFile.FileTable.Verify` | contrib/mod_quotatab_file.c:324-343 | a table is accepted if and only if it starts with the magic number |
| `TallyFile.FileTable.Update` | contrib/mod_quotatab_file.c:412-425 | lock and unlock cover the very bytes that are re-read and rewritten in between; what is stored is the record re-read and charged, or the copy in memory if the read failed |
| `TallyFile.FileTable.Lookup` | contrib/mod_quotatab_file.c:121-190 | succeeds if and only if a matching record exists and the reads up to it succeed; it is then the first one, in memory, with the cursor at its start |
| `Login.NewRecordFits` | contrib/mod_quotatab.c:517-544 | a lookup finds the record a login creates, and a record clashes with it exactly if the lookup would have found it |
| `Login.UniqueStep` | contrib/mod_quotatab.c:2675-2985 | no step of any login or session makes two records with one key |
| `Login.InvAlongRun` | contrib/mod_quotatab.c:2675-2985 | the invariant of logins and sessions holds after every interleaving |
| `Login.NoDuplicateTallies` | contrib/mod_quotatab.c:2675-2985 | as long as no mutex or scan failed, no interleaving leaves two records with one type and name (type alone for all-quota) |
| `Login.GuardedLoginsNeverDuplicate` | contrib/mod_quotatab.c:2675-2985 | with the mutex acquired by every login and no scan failing, keys stay unique in every interleaving |
| `Login.UnguardedLoginsDuplicate` | contrib/mod_quotatab.c:2675-2712 | a run without the mutex that creates one user's tally twice; KeysUniqueIff has the exact condition |
| `Login.CreateKeepsKeysIff` | contrib/mod_quotatab.c:495-544 | a creation, with or without the mutex, keeps the keys unique if and only if the table has no record for its key at that moment |
| `Login.KeysUniqueIff` | contrib/mod_quotatab.c:2675-2985 | a run of logins and sessions, whatever became of the mutex, leaves the keys unique if and only if each creation in it met a table without a record for its key |
| `TallySessions.CursorStaysAtOneRecord` | contrib/mod_quotatab_file.c:192-448 | once a session has begun, in every interleaving and with or without the mutex, it locks, reads (before a command and within a tally write), charges, writes and unlocks with its byte cursor at the start of one and the same record, and is one record further only before a rewind |
| `TallyLocks.LockInvAlongRun` | contrib/mod_quotatab_file.c:412-445 | after every interleaving two processes share bytes only under read locks, and each holds the lock its stage supposes |
| `TallyLocks.LocksExclude` | contrib/mod_quotatab.c:495-515 | in every run, with or without the mutex, two creations whose scans ended at the same place are never between lock and unlock together; nor are two tally writes at one record, a tally write and a read, or a creation and a session's section where its scan ended |
| `TallyLocks.CreationUnlocksIff` | contrib/mod_quotatab.c:495-515 | a creation unlocks what it locked if and only if its scan ended at what is the end of the file when it seeks it; if not, its session keeps an earlier record write-locked until it exits, and no other process is granted a lock there |
| `TallyLocks.ExitGivesUpLocks` | contrib/mod_quotatab.c:4079-4114 | with the end of its session a process gives up every lock, a leftover one included |
| `TallyKeys.InvAlongRun` | contrib/mod_quotatab_file.c:53-448 | the invariant of byte cursors and records in memory holds after every interleaving |
| `TallyKeys.SessionsKeepTheirRecord` | contrib/mod_quotatab_file.c:192-425 | with the mutex held by every login no record changes its name or type, and what a session has in memory always has those of the record at its cursor |
| `TallyKeys.MutexIsGivenBack` | contrib/mod_quotatab.c:2675-2985 | in every run, whether or not others got the mutex, only a process in the middle of its login holds it |
| `TallyKeys.GuardedCreationsUnlock` | contrib/mod_quotatab.c:495-515 | with the mutex held and no scan failing, a creation locks the end of the file, writes there and unlocks that record; a session has exactly its own record locked between lock and unlock, and no process holds any other lock |
| `TallyRecords.StepRefines` | contrib/mod_quotatab_file.c:53-425 | every lock, readv, writev and lseek is a step of the list of records or none |
| `TallyRecords.RunRefines` | contrib/mod_quotatab_file.c:53-425 | along every run with the mutex held the bytes of the file implement the list of records |
| `TallyRecords.FileHasNoDuplicates` | contrib/mod_quotatab.c:2675-2985 | with the mutex held and no scan failing, every interleaving leaves a well-formed file without two records of one key |
| `TallyCharges.NoChargeLostInFile` | contrib/mod_quotatab.c:1280-1397 | in every interleaving of logins, reads and writes on the bytes with the mutex held and the re-reads succeeding, every record's counters are its first ones (zero if it was created since) with exactly the charges stored at it, in order |
| `TallyCharges.PeekIsCurrent` | contrib/mod_quotatab.c:762-793 | a read before a command gives the session the record of the file, still that when the read lock is given up, in every interleaving under the mutex |
| `TallyCollision.CreateKeepsTagsIff` | contrib/mod_quotatab_file.c:85-97 | a creation keeps every record's name and type if and only if the end it sought is still the end, or the record there is its own |
| `TallyCollision.UnguardedCreatesCollide` | contrib/mod_quotatab.c:495-515 | a run of three logins without the mutex whose locks are all granted: one session ends up at the record of the second user and keeps the record of the third locked |
| `TallyCollision.FailedScanKeepsLock` | contrib/mod_quotatab.c:495-515 | a run under the mutex in which a login whose scan met a read error keeps another user's record locked, so that no other process can lock it |
| `Login.PostPass` | contrib/mod_quotatab.c:2662-2985 | every path releases the mutex exactly as often as it takes it; the limit in force is the first of user, groups, class and all; quotas stay on exactly if its tally was found or created |
| `SessionQuota.FilesStayWithin` | contrib/mod_quotatab.c:3397-3641 | no command, whatever its outcome, carries a file counter past its limit |
| `SessionQuota.UploadOutcome` | contrib/mod_quotatab.c:3504-3847 | charging, overrun and taking back of every upload handler amount to one settlement |
| `SessionQuota.UploadStaysWithinIff` | contrib/mod_quotatab.c:1836-2132 | under a hard limit a command leaves the upload tally within its limit if and only if it does not take back, for the transfer limit, a shrinking larger than the upload limit |
| `SessionQuota.ShrinkBreachHappens` | contrib/mod_quotatab.c:3673-3847 | a state in which a STOR broken off at the transfer limit carries the upload tally past its hard limit |
| `SessionQuota.TallyStaysNonNegative` | contrib/mod_quotatab.c:1303-1333 | no sequence of tally writes makes a byte counter negative |
| `SessionQuota.RollbackRestoresIff` | contrib/mod_quotatab.c:3560-3641 | taking back a STOR restores all six counters if and only if the file was new, uncounted or the first, and the byte tally did not touch the floor |
| `SessionQuota.FailedRollbackRestoresIff` | contrib/mod_quotatab.c:3673-3847 | taking back a failed STOR restores all six counters if and only if the byte tally did not touch the floor |
| `SessionQuota.AppendRollbackRestoresIff` | contrib/mod_quotatab.c:1907-2132 | taking back an APPE lowers both counts of stored files by one unless unlimited or zero, although it never raised them; all six counters are restored if and only if it does not and the byte tally did not touch the floor |
| `SessionQuota.NewFileRollbackIsExact` | contrib/mod_quotatab.c:3560-3847 | an overrunning STOR of an absent file, completed or broken off, leaves all six counters as they were |
| `SessionQuota.CommandKeepsPromise` | contrib/mod_quotatab.c:1836-3847 | every whole command keeps the file counters within their limits, the byte counters non-negative and nothing pending, and the upload tally within a hard limit if and only if it is not such a breach |
| `SessionQuota.LimitsHoldAlongRun` | contrib/mod_quotatab.c:1836-3847 | after any run of STOR, APPE, RETR and DELE free of such breaches the upload tally and all three file counters are within their limits |
| `SessionQuota.DeniedAppendChargesIff` | contrib/mod_quotatab.c:2016-2132 | a refused APPE leaves the tally alone if and only if there is no file, the cached size happens to be right, or the tally is at the floor |
| `Admission.RefusedIffReached` | contrib/mod_quotatab.c:3074-3180 | a command on a path that counts is refused if and only if one of its own counters has reached an active limit |
| `Admission.RaisesOnlyOwn` | contrib/mod_quotatab.c:1836-3847 | a command raises none but its own counters, whether it completes, fails or is refused |
| `Admission.OwnIsRaised` | contrib/mod_quotatab.c:1836-3847 | and each of them it can raise |
| `Admission.RaisedFoundRoom` | contrib/mod_quotatab.c:1836-3847 | a counter that a command raises stood below its active limit, for every counter and command but a refused APPE |
| `Admission.RunRaisesOnlyWithRoom` | contrib/mod_quotatab.c:1836-3847 | in every run of commands, whenever a counter rises it stood below its active limit, and a command is refused if and only if one of its own counters had reached it |
| `Admission.TakenBackIff` | contrib/mod_quotatab.c:3560-3847 | an upload's charge is taken back if and only if it carries a tally past a hard limit and the file can be removed; that of a failed STOR under either kind of limit |
| `Admission.CacheAfter` | contrib/mod_quotatab.c:1836-2630 | which size each command leaves in the cache that a refused APPE is measured against |
| `QuotaHandlers.Handlers.Store` | contrib/mod_quotatab.c:3397-3847 | the STOR handlers run one after the other keep that promise from one command boundary to the next, compute what is specified, and remove the file exactly when specified |
| `QuotaHandlers.Handlers.Append` | contrib/mod_quotatab.c:1836-2132 | the same for the APPE handlers |
| `QuotaHandlers.Handlers.Retrieve` | contrib/mod_quotatab.c:3075-3301 | the same for the RETR handlers; each counter it raises stood below its active limit |
| `QuotaHandlers.Handlers.Delete` | contrib/mod_quotatab.c:2439-2630 | the same for the DELE handlers |
| `QuotaHandlers.Handlers.ExitEvent` | contrib/mod_quotatab.c:4079-4114 | a pending update is charged as one whole transfer in its direction |
| `ChargeLedger.InvAlongRun` | contrib/mod_quotatab.c:157-163 | the accounting invariant holds when the session may end between any two steps of any handler |
| `ChargeLedger.EachCommandAccountedFor` | contrib/mod_quotatab.c:4079-4114 | wherever the session ends, the tally is the initial one plus the ledger, every second write takes back its own command's charge, each command that is over has exactly the charges its outcome explains, and nothing is pending outside a command |
| `ChargeLedger.CompletedTransferChargedOnce` | contrib/mod_quotatab.c:3504-3671 | in every run a completed transfer is charged exactly once: its growth on disk, its bytes and its file |
| `ChargeLedger.FailedTransferCharged` | contrib/mod_quotatab.c:3673-3847 | in every run an admitted transfer that fails is charged once, for its bytes and no file; only a STOR that moved and stored nothing may go without |
| `ChargeLedger.CutOffTransferCharged` | contrib/mod_quotatab.c:4079-4114 | in every run a transfer cut off by the end of the session is charged what is due by its handler if that stored, and by the exit event if the flag was still set |
| `ChargeLedger.CutOffDeleteChargedIff` | contrib/mod_quotatab.c:4079-4114 | in every run a DELE cut off by the end of the session is charged for an upload if and only if it had found its file on a path that counts |
| `ChargeLedger.ChargedTwiceIff` | contrib/mod_quotatab.c:157-163 | a command is charged twice if and only if the session ends between the store of its charge and the clearing of the flag, and never more often |
| `ChargeLedger.UndisturbedHandlerIsPost` | contrib/mod_quotatab.c:157-163 | a handler whose tally writes go through step by step leaves exactly what the handler functions say |
| `ChargeLedger.ExitDuringDeleteChargesUpload` | contrib/mod_quotatab.c:4079-4114 | a session that ends between the handlers of a DELE is charged one uploaded file if the DELE had found its file on a path that counts, and nothing otherwise |
| `ChargeLedger.UploadChargeWithinIff` | contrib/mod_quotatab.c:1335-1371 | that charge leaves the file counts within their limits if and only if there is room for one more file in each, or the count wraps around to zero |
| `ChargeLedger.ExitInsideWriteChargesTwice` | contrib/mod_quotatab.c:157-163 | a run, for every admitted download, in which the end of the session inside the tally write charges it twice |
| `DiskUsage.UsageOfUpdate` | contrib/mod_quotatab.c:3504-3671 | writing or removing one file changes the space used by that file's change |
| `DiskUsage.UploadCovered` | contrib/mod_quotatab.c:3504-3847 | no upload, whatever its outcome, makes the tally less than what is on disk or carries it past a hard limit, unless it is a refused APPE that the tally cannot bear |
| `DiskUsage.OtherActsCovered` | contrib/mod_quotatab.c:2439-2630 | nor does a download or a deletion |
| `DiskUsage.HardLimitBoundsDisk` | contrib/mod_quotatab.c:3397-3847 | if the tally covers the files to begin with, after every run of commands whose refused APPEs the tally can bear the files on disk are within the hard limit |
| `DiskUsage.RefusedAppendCoveredIff` | contrib/mod_quotatab.c:2016-2132 | a refused APPE leaves the tally covering the disk if and only if the tally can bear the difference from the cached size, or nothing is on disk, or the charge is an overrun |
| `DiskUsage.CacheStaysWithin` | contrib/mod_quotatab.c:1836-1905 | every act leaves a cached size that the limit allows |
| `DiskUsage.RefusedAppendKeepsFileIff` | contrib/mod_quotatab.c:2016-2132 | a refused APPE leaves its file alone if and only if the limit is soft or the difference from the cached size does not carry the tally over a limit |
| `DiskUsage.RefusedAppendRemovesFile` | contrib/mod_quotatab.c:2016-2132 | a run from an empty directory in which a refused APPE deletes the file |
| `DiskUsage.RefusedStoreKeepsFileIff` | contrib/mod_quotatab.c:3673-3847 | a refused STOR leaves the file of that name alone if and only if the limit is soft or the tally is not over a limit already |
| `DiskUsage.RefusedAppendUncovers` | contrib/mod_quotatab.c:2016-2132 | a run of ordinary uploads from an empty directory after which a refused APPE puts the tally below what is on disk |
| `DiskUsage.StoreAfterOverrunRemoves` | contrib/mod_quotatab.c:3740-3847 | whenever a download carries the transfer tally over a hard limit, a STOR to an existing file is then refused and deletes that file |
| `DiskUsage.RefusedStoreRemovesFile` | contrib/mod_quotatab.c:3740-3847 | a download that passes the transfer limit, and a STOR then refused that deletes the existing file |
| `SlotSearch.FindsFirstOpen` | contrib/mod_ban.c:810-880 | with an open slot the search ends at the nearest one in cyclic order from the cursor, within one round |
| `SlotSearch.GivesUpWhenFull` | contrib/mod_ban.c:857-875 | on a full table with the cursor inside it the search reports full after one round, back at its start |
| `SlotSearch.NeverEndsFromTheEnd` | contrib/mod_ban.c:857-875 | on a full table with the cursor past the last slot the search never ends |
| `SlotSearch.SearchEndsIff` | contrib/mod_ban.c:810-880 | the search ends if and only if a slot is open or the cursor starts inside the table |
| `SlotSearch.FindSlot` | contrib/mod_ban.c:1201-1249 | the loop finds the nearest open slot, and reports full exactly when every slot is used |
| `BanTable.NothingExpiredRemains` | contrib/mod_ban.c:1095-1131 | whatever the names, no expired entry is left and every entry left is unchanged |
| `BanTable.ExpiryRemovesExactly` | contrib/mod_ban.c:1027-1131 | with no empty names expiry removes exactly the expired entries and those of the same type and name that stand before one |
| `BanTable.GoneOnlyWithTime` | contrib/mod_ban.c:1095-1131 | with no empty names an entry goes only if some entry of its type and name has a time set that has come |
| `BanTable.GoneInTime` | contrib/mod_ban.c:1105-1107 | a used entry with a time set that has come is gone |
| `BanTable.TimeLeftTimeKept` | contrib/mod_ban.c:1105-1107 | a table in which every entry is for ever or has time left is left alone |
| `BanTable.KeptIffTimeLeft` | contrib/mod_ban.c:828 | a ban made for some seconds, or for ever if that is zero, is kept by an expiry if and only if its time is not over, unless an expired namesake takes it along |
| `BanTable.NewEntryShows` | contrib/mod_ban.c:820-845 | a new ban shows its own name, reason and message, up to 127 characters |
| `BanTable.BanList.Add` | contrib/mod_ban.c:800-913 | succeeds if and only if a slot is open; the entry goes to the nearest one and nothing else changes |
| `BanTable.BanList.Exists` | contrib/mod_ban.c:921-1025 | answers as a full scan would, the length-zero shortcut included; the message is that of the first entry that serves |
| `BanTable.BanList.Remove` | contrib/mod_ban.c:1027-1093 | a removal with wildcards clears all targets, one without clears the first; the length stays the number of used slots |
| `BanTable.BanList.RemoveNameOf` | contrib/mod_ban.c:1027-1093 | the removal whose name argument lies in a slot it clears |
| `BanTable.BanList.Expire` | contrib/mod_ban.c:1095-1131 | afterwards every entry is for ever or has time left; a list of which that was true before is left alone; the length stays right although slots are cleared inside the loop |
| `BanMap.ExistsIsMapLookup` | contrib/mod_ban.c:921-1025 | a ban is found if and only if the map has it for this server or for all |
| `BanMap.AddIsMapUpdate` | contrib/mod_ban.c:800-913 | an addition of an absent key is a map update |
| `BanMap.RemoveAllIsMapFilter` | contrib/mod_ban.c:1027-1093 | a wildcard removal filters the map |
| `BanMap.RemoveFirstIsMapFilter` | contrib/mod_ban.c:1027-1093 | with unique keys removing the first target removes the key |
| `BanMap.ExpiryOnMap` | contrib/mod_ban.c:1095-1131 | expiry drops every expired key, and else only keys sharing type and name with one |
| `BanMap.StepRefinesMap` | contrib/mod_ban.c:800-1131 | every operation on the slots is one on a map of the table's capacity, an addition being dropped exactly if the ban is there or the map full, and keeps keys unique and free slots zero |
| `BanMap.TableRefinesMap` | contrib/mod_ban.c:800-1131 | the table refines a finite map of its capacity, keyed by type, server and name, along every run |
| `BanMap.LengthFollowsMap` | contrib/mod_ban.c:800-1131 | along every run the cached length is the size of the map |
| `BanMap.BanLastsItsTime` | contrib/mod_ban.c:800-1131 | in every run that leaves its name alone a ban stands in its slot until the first expiry at or after its time, and is gone then; one without a time stands for ever |
| `BanMap.AddedBanIsFoundIff` | contrib/mod_ban.c:826 | a ban is found under the name it was added with if and only if the name is shorter than 128 characters |
| `BanMap.AdditionsFillList` | contrib/mod_ban.c:810-858 | any additions to an empty list fill it from the front, the cursor one past the last |
| `BanMap.FullListHangsNextAdd` | contrib/mod_ban.c:857-875 | after as many additions to an empty list as it has slots, the search of the next one never ends |
| `BanEvents.EventList.Add` | contrib/mod_ban.c:1191-1252 | the entry goes to the nearest open slot with its count at zero; full tables are left alone |
| `BanEvents.EventList.Get` | contrib/mod_ban.c:1254-1275 | the first slot with the key if and only if there is one, the length-zero shortcut included |
| `BanEvents.EventList.RemoveOne` | contrib/mod_ban.c:1277-1311 | the first entry with the key is cleared, and failure means there was none |
| `BanEvents.EventList.RemoveType` | contrib/mod_ban.c:1277-1311 | exactly the entries of the type and server are cleared |
| `BanEvents.EventList.Expire` | contrib/mod_ban.c:1313-1341 | an entry whose key is not repeated is cleared if and only if its window has passed; no entry is changed otherwise |
| `BanEvents.ShedOnTime` | contrib/mod_ban.c:1313-1341 | an entry whose key is not repeated goes if and only if its rule gives a ban duration and its window has passed |
| `BanOnEvent.HandledInThreeSteps` | contrib/mod_ban.c:2528-2556 | expiring, opening and counting together move every key's entry as specified, and keep each key in one slot |
| `BanOnEvent.HandledKeepsUnique` | contrib/mod_ban.c:1191-1275 | handling an event whose source is stored whole keeps event keys unique |
| `BanOnEvent.BanEngine.Entry` | contrib/mod_ban.c:2530-2549 | the key's entry is found or made, and no other key's changes |
| `BanOnEvent.BanEngine.Ban` | contrib/mod_ban.c:2558-2584 | a ban is added if and only if none serves the source, and the table is then the expired one with the ban in an open slot |
| `BanOnEvent.BanEngine.HandleEvent` | contrib/mod_ban.c:2501-2592 | every key's entry moves as specified; the session ends and a ban is added if and only if the own count has met its threshold and no ban entry, expired or not, serves the source; event keys stay unique; a source too long to be stored whole takes a further slot and is not banned |
| `BanOnEvent.ExpiredBanSuppressesNew` | contrib/mod_ban.c:2562-2568 | a state in which an expired ban keeps a source at its threshold from being banned |
| `BanWindow.CountFollowsWindow` | contrib/mod_ban.c:2501-2592 | in every run with events of all sources mixed, a key's entry is what its own timestamps say: the count within the window anchored at its first event, capped at the threshold |
| `BanWindow.ReachedIff` | contrib/mod_ban.c:2551-2556 | an event meets the threshold if and only if its anchored window holds that many events |
| `BanWindow.WindowRestarts` | contrib/mod_ban.c:1313-1341 | in every run the first event after a window leaves the entry at a count of one in a new window |
| `BanWindow.NotBannedBefore` | contrib/mod_ban.c:2501-2592 | in every run of both tables, nothing bans a watched source before one of its events fills its window |
| `BanWindow.FirstFullIsNth` | contrib/mod_ban.c:2551-2556 | the first event to find its window full is exactly the Nth in it |
| `BanWindow.BannedOnNthEventIff` | contrib/mod_ban.c:2501-2592 | in every run of both tables, with events of all sources mixed, a source not yet banned is in the ban list after one of its events and not before, if and only if that is the Nth event of its anchored window and no earlier one filled a window |
| `BanWindow.BanIsAsTheRuleSays` | contrib/mod_ban.c:2551-2592 | the ban that an event brings is of the kind asked for, for the source on its own server, and lasts from that event as long as the rule says |
| `BanWindow.ZeroThresholdNeverCounts` | contrib/mod_ban.c:2501-2556 | in every run a source under a rule with a threshold of zero is never tracked and never banned by its events |
| `BanWindow.LongSourceNeverCounted` | contrib/mod_ban.c:2501-2592 | in every run a source of 128 characters or more is never found and never banned by its events, and each of them takes one more slot, with a count of zero, while one is free |
| `BanWindow.EventKeysStayUnique` | contrib/mod_ban.c:1191-1341 | in every run of handled events, removals and timer expiries with sources stored whole, no two slots have the same key |
| `InflateRead.DeliveryIsFaithful` | contrib/mod_deflate.c:298-514 | for every sequence of buffer sizes, delivered bytes followed by buffered ones are inflate's outputs in order |
| `InflateRead.RawCountsSocketBytes` | contrib/mod_deflate.c:340-426 | once the caller has added back what it was returned, the wrapping raw counter is the bytes read off the socket |
| `InflateRead.ZeroIffEnd` | contrib/mod_deflate.c:408-417 | a request for something is answered with zero if and only if the socket is at its end and nothing is left to inflate or hand out |
| `InflateRead.EndMeansAllDelivered` | contrib/mod_deflate.c:298-514 | whenever a run signals the end, all that inflate has put out has been delivered |
| `InflateRead.RefillIsHandedOut` | contrib/mod_deflate.c:440-514 | the call after a refill hands out the front of what inflate produced |
| `InflateRead.InflateBuffer.constructor` | contrib/mod_deflate.c:202-296 | a stream opened for reading has nothing buffered |
| `InflateRead.InflateBuffer.Drain` | contrib/mod_deflate.c:325-382 | hands out the front of the buffered bytes and keeps the rest; an emptied buffer points at its base |
| `InflateRead.InflateBuffer.Read` | contrib/mod_deflate.c:298-514 | every path does what the specification says, inflate's output stays inside the buffer, and the branch that grows it is never taken |
| `DeflateWrite.Passed` | contrib/mod_deflate.c:655-693 | under any pattern of short, retried and failing writes no more than the data goes out, and all of it exactly when the loop ends well |
| `DeflateWrite.StreamIsFaithfulIff` | contrib/mod_deflate.c:603-714 | over every run the bytes on the socket followed by the buffered ones are deflate's output in order if and only if every failing call failed before its first byte |
| `DeflateWrite.BrokenWriteRepeats` | contrib/mod_deflate.c:658-671 | a run in which a byte is sent twice |
| `DeflateWrite.RawCountsSocketBytes` | contrib/mod_deflate.c:673-710 | with the caller's additions the wrapping raw counter is the bytes on the socket, on failing runs too |
| `DeflateWrite.PassedIsTaken` | contrib/mod_deflate.c:655-693 | the write loop sends what the socket takes before its first hard error, and breaks off exactly if that comes before everything is out |
| `DeflateWrite.CountIffAllOut` | contrib/mod_deflate.c:603-714 | a call is answered with a count if and only if there was nothing to write or deflate succeeded and the socket took everything; it fails if and only if deflate or the socket did |
| `DeflateWrite.CountsSumToInput` | contrib/mod_deflate.c:694-714 | along a run without failures the returned counts sum to the input that deflate took |
| `DeflateWrite.DeflateBuffer.constructor` | contrib/mod_deflate.c:202-253 | a stream opened for writing has an empty buffer |
| `DeflateWrite.DeflateBuffer.Send` | contrib/mod_deflate.c:655-693 | the socket gets the front of the buffer in order, and the counter as many bytes |
| `DeflateWrite.DeflateBuffer.Write` | contrib/mod_deflate.c:603-714 | every path does what the specification says, to the buffer, the counter and the socket |
| `DeflateWrite.DeflateBuffer.Shutdown` | contrib/mod_deflate.c:520-601 | the last output follows what was buffered; success means all of it went out |
| `ForensicRing.RepresentsAdded` | contrib/mod_log_forensic.c:112-162 | after an addition the slot k behind the index again holds the k-th newest message or nothing |
| `ForensicRing.SweptIsWalked` | contrib/mod_log_forensic.c:528-629 | the walk over k slots has written the oldest held messages in order and cleared their slots |
| `ForensicRing.Ring.Add` | contrib/mod_log_forensic.c:112-162 | the ring holds the last n messages that were not dumped |
| `ForensicRing.Ring.Walk` | contrib/mod_log_forensic.c:528-629 | the loop visits every slot but the one behind the index, once |
| `ForensicRing.Ring.Dump` | contrib/mod_log_forensic.c:506-635 | writes every held message but the newest in order of arrival, and keeps the newest |
| `ForensicRing.EveryMessageAccountedFor` | contrib/mod_log_forensic.c:112-635 | in every run the messages that left the ring are the earliest ones, each once and in order, written or overwritten, and all others are held |
| `ForensicRing.OverwrittenByNthNewer` | contrib/mod_log_forensic.c:121-131 | a message is overwritten only by the n-th to arrive after it |
| `ForensicRing.NewestIsHeldBack` | contrib/mod_log_forensic.c:528-535 | the newest message is still held after every run |
| `RatioCredit.StoringEarns` | contrib/mod_ratio.c:238-262 | storing never lowers a credit, for multiplying and dividing rates |
| `RatioCredit.EarnedByRate` | contrib/mod_ratio.c:239-262 | under a rate of -n one is earned for every n stored and nothing for less, under a rate of n exactly n for each one stored |
| `RatioCredit.FilesFetchedWithinRate` | contrib/mod_ratio.c:525-569 | in every run the files fetched beyond the initial credit stay within the rate, for dividing and multiplying rates |
| `RatioCredit.BytesFetchedWithinRate` | contrib/mod_ratio.c:525-569 | so do the kilobytes, if no transfer carries more than its check saw |
| `RatioCredit.RefusedIffOverdrawn` | contrib/mod_ratio.c:525-569 | a download of a file below 2 GB is refused if and only if fetching it would overdraw an enforced credit |
| `RatioCredit.UnexaminedCountsAsEmpty` | contrib/mod_ratio.c:547-557 | a file that cannot be examined is let through like an empty one |
| `RatioCredit.TotalsCountTransfers` | contrib/mod_ratio.c:835-859 | the totals of a run are the initial ones plus what its uploads stored and its admitted downloads fetched |
| `RatioCredit.HonestIff` | contrib/mod_ratio.c:547-557 | the byte check covers a transfer on every amount of credit if and only if no more kilobytes are moved than the size it saw, or less than one |
| `RatioCredit.BoundedTransferIsHonest` | contrib/mod_ratio.c:547-557 | which holds of transfers no larger than an examined size below 2^31, and of less than a kilobyte of a file that could not be examined |
| `RatioCredit.CreditStaysNonNegative` | contrib/mod_ratio.c:525-569 | in every run in which the check covers what is transferred no enforced credit is overdrawn |
| `RatioCredit.CheckIsSoundIff` | contrib/mod_ratio.c:547-557 | the byte check covers a file for every amount of credit if and only if its size is below 2^31 |
| `RatioCredit.LargeFileOverdraws` | contrib/mod_ratio.c:547-557 | a 4 GB file is admitted on no credit |
| `RatioCredit.Stats.UpdateRatios` | contrib/mod_ratio.c:226-264 | the cached credits are those of the totals under the configured ratio; under a rate of -n the earned part times n is at most what was stored, and one more would exceed it |
| `RatioCredit.Stats.PreRetr` | contrib/mod_ratio.c:525-569 | a download is admitted if and only if the ratio admits it; totals are untouched |
| `RatioCredit.Stats.PostRetr` | contrib/mod_ratio.c:835-846 | one more file and its kilobytes fetched, credits brought up to date |
| `RatioCredit.Stats.PostStor` | contrib/mod_ratio.c:848-859 | one more file and its kilobytes stored, credits brought up to date |
| `VersionText.ParsePrinted` | contrib/mod_ifversion.c:54-250 | a printed major.minor.revision with any suffix is read back up to the width of the counters, and refused exactly if the suffix is |
| `VersionText.ReleaseRoundTripIff` | contrib/mod_ifversion.c:54-250 | a printed release is read back exactly if and only if its numbers fit 32 bits |
| `VersionText.ParseMajor` | contrib/mod_ifversion.c:100-108 | a printed major number alone is read back, with everything else and the status zero |
| `VersionText.ParseMajorMinor` | contrib/mod_ifversion.c:131-139 | so is a printed major.minor |
| `VersionText.TrailingPeriodRefused` | contrib/mod_ifversion.c:88-130 | a period with nothing after it is refused, and so is a string not beginning with a digit |
| `VersionText.RevisionNeedsDigit` | contrib/mod_ifversion.c:141-160 | what follows the second period has to begin with a digit |
| `VersionText.SuffixAcceptedIff` | contrib/mod_ifversion.c:195-249 | a printed revision with something behind it is accepted if and only if that is one letter, or rc and digits or none |
| `VersionText.SignedNumber` | contrib/mod_ifversion.c:84-139 | white space and a sign before the digits are taken |
| `VersionText.ConvertedIs` | contrib/mod_ifversion.c:84-139 | a minus sign gives the number the digits complete to zero in 32 bits, and a number too large for a long the largest int |
| `VersionText.BareCandidate` | contrib/mod_ifversion.c:221-249 | rc without a number has the candidate status itself |
| `VersionText.CandidateRoundTrip` | contrib/mod_ifversion.c:221-249 | a printed release candidate is read back with its number added to the candidate status |
| `VersionText.CompareIsLexicographic` | contrib/mod_ifversion.c:276-302 | one version is above another if and only if it is larger at the first place where major, minor, revision and status differ |
| `VersionText.CompareIsTotalPreorder` | contrib/mod_ifversion.c:276-302 | comparison of version strings is a total preorder, level exactly on strings of the same meaning |
| `VersionText.CandidateBelowReleaseIff` | contrib/mod_ifversion.c:221-249 | a release candidate is strictly below its release if and only if its 32-bit status is, which is n below 200 for numbers that do not wrap it |
| `VersionText.MaintenanceOrder` | contrib/mod_ifversion.c:209-219 | maintenance letter a is level with the release, every later letter above it |
| `VersionParser.ConvertUl` | contrib/mod_ifversion.c:82-83 | conversion and end-pointer test agree with the number the characters spell |
| `VersionParser.ConvertFront` | contrib/mod_ifversion.c:76-90 | cutting the buffer, converting and restoring leaves the buffer unchanged |
| `VersionParser.ParseVersion` | contrib/mod_ifversion.c:54-250 | the buffer is unchanged on every return path, errors included, and the result is what the string means |
| `VersionParser.CompareVersion` | contrib/mod_ifversion.c:252-303 | both buffers are unchanged; an ill-formed string is reported, and its -1 is the same as that of an older server |

## Left out

- Logging, response texts, display units, configuration directives and module tables: presentation without a deep property.
- Foreign-owner deletes, COPY, RNTO, RMD and MKD accounting in mod_quotatab: they depend on dispatch and global state outside these files.
- Backend registration list, directory scans and exclude filters in mod_quotatab: whether a path is excluded is an input here.
- The per-write check in mod_quotatab, which breaks an upload off when it passes a hard limit: uploads may end completed or failed with any size here.
- Byte counters of tallies are exact reals; rounding of doubles is not modelled.
- Admission.RunRaisesOnlyWithRoom: sizes and transfers are not negative and a refused command has moved no bytes; one session with its own tally.
- SessionQuota.LimitsHoldAlongRun: one session with its own tally, whose reads and writes succeed; sharing is the subject of SharedTally.
- DiskUsage.HardLimitBoundsDisk: assumes that a transfer of no bytes does not enlarge its file and that the tally can bear every refused APPE; RefusedAppendCoveredIff shows the second is exactly what is needed.
- TallyKeys.SessionsKeepTheirRecord: readv and writev move a whole record or nothing, and lseek does not fail; short writes are the subject of ShortCreateBreaksTable and ShortWriteMixesRecord.
- TallyLocks.LocksExclude: an unlock does not fail, and a lock is one step; retries and failing unlocks are the subject of TableLock.
- TallyCharges.NoChargeLostInFile: assumes that re-reads succeed; StoreIsFaithfulIff says exactly what a failed one costs. What a charge does to the counters is any function here; QuotaTypes has the one of the source.
- ChargeLedger.ChargedTwiceIff: tally reads and writes succeed, and the exit event's own write is one step.
- TableLock.QuotaTable.RLock: lock counters are natural numbers without an upper bound, and signals eventually stop arriving.
- TallyFile.FileTable.Read: retries after EINTR are not steps of their own; fields are little-endian byte strings.
- The limit table of the file backend and the SQL query texts of the SQL backend: record formats of the same kind and unseen query results.
- The memcached mirror, shared memory attachment, scoreboard disconnects and nested locking of mod_ban: calls into code outside the model; the handler runs under the exclusive lock and one clock value stands for its several time calls.
- BanMap.BanLastsItsTime: names that are not empty and are stored whole, and no expired ban of the same type and name for another server; ExpiryRemovesExactly says what such a namesake takes along.
- SharedTally.NoLockOutlivesItsCall: assumes that unlock calls succeed; HeldLockMatchesCounters covers the others.
- BanTable.BanList.Add: requires that the search ends; SearchEndsIff says exactly when, and FullListHangsNextAdd that the rest is reachable.
- BanOnEvent.BanEngine.HandleEvent: requires that both slot searches end; says nothing of a 127-character source that another source's cut name equals.
- BanWindow.CountFollowsWindow: assumes a clock that does not run backwards, a free slot for the source's own events, and one rule per event type.
- BanWindow.BannedOnNthEventIff: assumes the same, a free ban slot when the source needs one, and that no other event type bans the same source.
- zlib is a step that produces given bytes within the room it has; that leftover compressed input is not kept between reads is outside the statement about its outputs.
- DeflateWrite.DeflateBuffer.Shutdown: the final flush calls deflate once; output zlib would still hold back after that is not modelled.
- ForensicRing.Ring.Dump: formatting of log lines, retries of write errors and pool memory are not modelled.
- RatioCredit.CreditStaysNonNegative: 32-bit overflow of the file counters and of the credit product is not modelled; loading and saving of totals is left out.
- Pattern matching of versions (regular expressions) and section nesting in mod_ifversion.
