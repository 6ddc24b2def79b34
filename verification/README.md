# Verified models of the stateful cores of a file synchroniser

Syncthing keeps folders in step between devices; the desktop application in this repository adds a
backup of these folders to Dropbox, of which a backend service keeps a manifest. The Dafny modules
here model the parts of the repository that keep state over a long time and are hard to get right
by looking at one function at a time, and prove what they promise over all inputs, all runs or all
interleavings. Each module is named after what it models and begins with the source file it follows.

* **Dialling.** `RedialRegistry` is the registry that remembers when each address may be dialled
  again and how often a device was forced to be redialled. `DialParallel` and `DialTwice` are races
  of goroutines over connections that must all be returned or closed. Both are state machines with
  one step for each thing a goroutine can do; a run is any sequence of enabled steps.
* **Sessions.** `TokenManager` is the map of session tokens, compared with a list in order of last
  use that has a limit and a time to live.
* **Backup.** `Backup` is one pass over a folder, as a method over the index, the manifest, the
  backend and Dropbox; `BackupFiles` says which files it takes, and which names the synchroniser keeps
  for itself; `BackupRuns` are all histories of passes, failures, restarts and changes of
  the backed-up folders; `BackupFailures` asks what a broken iteration and a lost reply do to the
  backend, `BackupHistory` which histories of failures leave Dropbox right; `BackupPull` is the way
  back to a teammate's disk.
* **File systems.** `Folding` and `CaseFs` are the case-folding layer with its cache of
  directories, `CaseRaces` calls on it that overlap. `FakeFile` is a file of the fake file system
  whose contents come from a random number generator that is kept between reads, `FakeContent` one
  whose contents are kept in a buffer.
* **Configuration.** `ConfigWrapper` queues, verifies, commits and saves changes; `ConfigLists`,
  `ConfigShares`, `ConfigDevices` and `ConfigPrepare` bring a configuration into its normal form, and
  `ConfigFirsts` says which of several duplicates that keeps; `Migrations` upgrades old ones;
  `FolderOverlap` keeps the roots of folders apart.
* **Events.** `EventBus` numbers events for each subscription, `BufferedEvents` is the ring from
  which clients poll them.
* **Bandwidth.** `RateLimit` is a limited reader and writer, `DeviceLimiters` the table of limiters
  that follows the configuration.
* **Offers.** `ObservedDb` keeps the folders offered by other devices under keys of one string.

`Wrappers` and `Sorting` hold what the others share. Objects that change in place are classes; their
methods are proved against functions or relations on the abstract state, about which the lemmas then
speak. Instants and durations are whole numbers of nanoseconds.

## What the proofs brought to light

Where a promise does not hold of the code as it is, the model follows the code, a lemma names an
input, and another one says exactly when the promise does hold.

* A file that changes, is uploaded while the sync of the manifest fails, and changes back, keeps the
  wrong bytes in Dropbox however many passes follow (`BackupRuns.RevertedFileStaysWrong`). One pass
  without failures repairs manifest, disk and backend after any history, and Dropbox exactly if the
  files taken for unchanged were there (`BackupRuns.OnePassConverges`); that is so after every history,
  with any failures, in which no file goes back to contents it had before
  (`BackupHistory.NeverReturningConverges`).
* A file with an empty content key passes for unchanged although it was never listed; old manifest
  and deltas then do not make the new one (`Backup.DeltasMakeTheManifest`).
* If iterating over the index fails half way, what it did not reach is withdrawn from the backend
  (`BackupFailures.IteratorErrorWithdrawsTheRest`). The backend has all eligible files all the same
  exactly if nothing eligible was left (`BackupFailures.BrokenIterationMirrorsIndex`).
* If a request takes effect and its reply is lost, a file that is then deleted stays in the backend,
  and one that changes back keeps the other key (`BackupFailures.LostReplyLeavesAnOrphan`,
  `BackupFailures.LostReplyKeepsTheOtherKey`). For which files the next pass puts this right is
  `BackupFailures.LostReplyIsHealed`.
* The check for overlapping folders does not see that the root of the file system contains every
  other folder, because it appends a separator to a path that ends in one
  (`FolderOverlap.RootIsOverlooked`). It is right about all others (`FolderOverlap.WhatTheCheckMeans`).
* Preparing a configuration twice may change the addresses of a device whose addresses are all of a
  deprecated protocol: the default is filled in before these are removed
  (`ConfigDevices.AddressesSettle` has the condition).
* Removing duplicates may keep a later entry rather than the first one
  (`ConfigFirsts.NotAlwaysTheFirst`). It is always either the first or the last of a device that stays;
  which of them depends on the number of devices before the first and after the last
  (`ConfigFirsts.FirstOrLastSurvives`, `ConfigFirsts.FirstsSurvive`).
* A save of the configuration that fails when its timer fires is not tried again by itself
  (`ConfigWrapper.FailedSaveIsNotRetried`), nor is the last one when the server stops
  (`ConfigWrapper.FailedLastSaveIsFinal`). A change is unsaved without a timer exactly if one of these
  saves has failed, and no modification that asks for another configuration and no successful save
  has come since (`ConfigWrapper.UnsavedWithoutTimer`).
* The cache of the case-folding layer is dropped after every change, but a listing that was begun before
  the change may be added after that. Until it expires, a correctly spelled name is then refused, and
  a wrong one accepted where the file system ignores case (`CaseRaces.OvertakenLookupMisleads`,
  `CaseRaces.NodeStays`). The cache is right exactly if there is no such listing
  (`CaseRaces.FreshUnlessOvertaken`).
* A new limiter subscribes to changes before it commits the configuration it has read, so that a change
  can come in between. When that leaves wrong limits is `DeviceLimiters.OvertakenFirstCommit`; it does
  if a device is removed (`DeviceLimiters.RemovedDeviceIsHarmed`).
* Without a positive lifetime the token just issued can be the one evicted, exactly if there are too
  many tokens (`TokenManager.NoLifetimeMayEvictTheNewest`).
* Polling events with a negative number brings blank events until the ring has been full once
  (`BufferedEvents.SinceMeans`).
* Offers of folders whose ID contains a slash are stored but neither listed nor removed with their
  folder (`ObservedDb.ListingIsTheMap`, `ObservedDb.RemoveFolderClearsOneFolder`).
* On the fake file system, seeking from the end counts backwards (`FakeFile.SeekFromEndCountsBackwards`).
  A comment beside the block shift there says 128 KiB, and so does the description in the function;
  the shift is 14, hence the model has blocks of 16 KiB.
* Where the fake file system keeps contents, a truncation that makes a file longer brings back bytes that
  were cut off before (`FakeContent.CutOffComesBack`). The file holds what was written and zeros exactly
  if no truncation does so (`FakeContent.AlwaysAsMeant`), and always if no file is made longer by
  truncation after it was made shorter (`FakeContent.NeverRegrownIsAsMeant`).
* In the cleanup of the redial registry the count of attempts is reset on a local copy and never
  stored; the model keeps this, and the bounds hold all the same.
* The comment on migrations says that converters need not set the version; they may even set it to
  anything, since the migration sets it after them (`Migrations.VersionReached`).

## Model

| member | source | states |
|---|---|---|
| RedialRegistry.NextDialRegistry.Get | lib/connections/service.go:1204-1206 | the pending dial time of an address, or the zero instant |
| RedialRegistry.NextDialRegistry.RedialDevice | lib/connections/service.go:1219-1246 | a device that is cooling down is refused and nothing changes; any other device is left without a pending dial time; no other device is touched |
| RedialRegistry.NextDialRegistry.Set | lib/connections/service.go:1248-1253 | sets one dial time, keeps all others, and leaves the memory of redials of every device alone |
| RedialRegistry.NextDialRegistry.SleepDurationAndCleanup | lib/connections/service.go:1255-1282 | sleeps until the earliest pending dial time, at most a minute; keeps these times; forgets exactly the devices without pending times of which no redial still counts |
| RedialRegistry.CleanupKeepsPending | lib/connections/service.go:1255-1282 | a cleanup keeps the pending dial time of every address that is not past, and forgets the others |
| RedialRegistry.CleanupForgets | lib/connections/service.go:1255-1282 | which devices a cleanup forgets: those without pending dial times whose counted redials are two minutes old, or five if there were three; it changes no others |
| RedialRegistry.MemoryStep | lib/connections/service.go:1219-1282 | only a grant adds to what is remembered of a device, and only a cleanup after the remembered time loses it |
| RedialRegistry.IntervalIsRemembered | lib/connections/service.go:1219-1282 | in every run with a clock that does not go back, the registry knows how many redials were counted from any start on, or their time is over |
| RedialRegistry.CoolDownIsKept | lib/connections/service.go:1208-1282 | after three counted redials since s no redial is granted before s plus five minutes, whatever calls come between |
| RedialRegistry.RefusedMeans | lib/connections/service.go:1208-1282 | in every run a redial is refused exactly while less than five minutes have passed since the start of an interval in which three were counted |
| RedialRegistry.AtMostFiveRedialsInTwoMinutes | lib/connections/service.go:1208-1282 | every half-open window of two minutes of every run holds at most five forced redials of a device |
| RedialRegistry.FiveAreReached | lib/connections/service.go:1208-1282 | the bound of five is tight: a run that reaches it |
| DialParallel.FillBuckets | lib/connections/service.go:1098-1103 | the map from each priority to its targets in their order, and no other keys |
| DialParallel.GroupByPriority | lib/connections/service.go:1098-1108 | buckets strictly sorted by priority that together hold all targets |
| DialParallel.EachTargetIsGrouped | lib/connections/service.go:1098-1103 | a bucket has each target of its priority as often as it was given |
| DialParallel.InvHolds | lib/connections/service.go:1096-1161 | in every interleaving each open connection has exactly one owner, and one of the expected device waits in the channel until the caller returns |
| DialParallel.ValidMeansExpected | lib/connections/service.go:1170-1194 | in every interleaving a connection whose validation has ended counts as valid exactly if it was opened with one certificate, that of the expected device, which is not our own |
| DialParallel.OthersAreClosed | lib/connections/service.go:1170-1194 | one that was opened with any other list of certificates is never returned, and closed once when its validation has ended |
| DialParallel.EveryRunEnds | lib/connections/service.go:1109-1161 | no interleaving goes on for ever |
| DialParallel.QuiescentMeansDone | lib/connections/service.go:1109-1161 | no interleaving gets stuck before the caller has returned or given up and the channel is drained |
| DialParallel.EveryRunCanBeCompleted | lib/connections/service.go:1109-1161 | wherever a run has come, it can go on until the caller has returned or given up, every goroutine has ended and the channel is drained |
| DialParallel.EveryConnectionIsReturnedOrClosed | lib/connections/service.go:1096-1194 | every opened connection is returned or closed once, never both; the one returned showed the certificate of the expected device and nothing else, and lies in the lowest bucket with any such connection; without one, all targets were tried |
| DialParallel.ReturnedIsNeverClosed | lib/connections/service.go:1131-1152 | at every moment the returned connection is open |
| DialParallel.NeverTooManyAtOnce | lib/connections/service.go:1109-1127 | no more than eight targets are dialled or validated at a time |
| DialTwice.EveryConnectionIsReturnedOrClosed | lib/dialer/public.go:139-192 | when nothing can happen any more, both connections that were opened are returned or closed once, never both |
| DialTwice.FirstIsPreferred | lib/dialer/public.go:139-192 | a first connection that was opened is the one returned; the second one is returned exactly if the first attempt failed and it was opened |
| DialTwice.SecondIsJustified | lib/dialer/public.go:139-192 | in every interleaving the second dial begins only once its timer has fired or the first attempt has failed |
| DialTwice.SecondWaitsForFirst | lib/dialer/public.go:139-192 | while the timer has not fired, a first connection that was opened keeps the second one from being dialled |
| DialTwice.SecondIsTried | lib/dialer/public.go:139-192 | unless the caller cancels, a failed first attempt is always followed by the second one, whose connection is then returned if it was opened |
| DialTwice.EveryRunEnds | lib/dialer/public.go:139-192 | no interleaving takes more than seven steps |
| DialTwice.EveryRunCanBeCompleted | lib/dialer/public.go:139-192 | wherever a run has come, it can go on without a cancellation until both attempts are over |
| TokenManager.TokenManager.Check | lib/api/tokenmanager.go:61-79 | succeeds exactly for a token that is there and not expired, which is then used now; expired tokens are swept |
| TokenManager.TokenManager.New | lib/api/tokenmanager.go:82-92 | adds the token as used now, then sweeps and evicts |
| TokenManager.TokenManager.Delete | lib/api/tokenmanager.go:102-108 | removes the token, then sweeps and evicts |
| TokenManager.TokenManager.SaveLocked | lib/api/tokenmanager.go:110-137 | what is left are the unexpired tokens, or as many of them as allowed, of which none expires before one that is gone |
| TokenManager.RunsLikeLru | lib/api/tokenmanager.go:61-145 | with a positive lifetime and an increasing clock every sequence of calls, from any tokens that were stored, gives the answers of the list in order of last use, and holds its tokens |
| TokenManager.JustUsedSurvives | lib/api/tokenmanager.go:61-137 | a token just issued or checked with success is never the one evicted |
| TokenManager.NewestOfHistory | lib/api/tokenmanager.go:61-137 | without deletions a check succeeds exactly for a token, stored before or issued, whose last use is within its lifetime and that fewer than the limit of others were used after |
| TokenManager.NoLifetimeMayEvictTheNewest | lib/api/tokenmanager.go:82-137 | without a positive lifetime the token just issued can be evicted at once exactly if more unexpired tokens are there than allowed, whatever is stored |
| TokenManager.NoLifetimeNeverExpires | lib/api/tokenmanager.go:61-92 | without a positive lifetime a token that stays is accepted at any later time |
| Backup.BaseOfFile | cmd/vidsync/backup.go:390-402 | the base name by which temporary files are recognised is the part after the last slash |
| Backup.BaseOfNothing | cmd/vidsync/backup.go:390-402 | the base of the empty path and of a path of slashes only |
| BackupFiles.SkippedMeans | cmd/vidsync/backup.go:390-402 | skipped are exactly the two marker names, what lies below a directory of old versions at any depth, and names whose last component begins and ends like that of a temporary file |
| BackupFiles.OwnNames | cmd/vidsync/backup.go:390-402 | in particular names below .stversions/ and temporary files in any directory |
| BackupFiles.OtherFilesAreLeftOut | cmd/vidsync/backup.go:318-386 | after an accepted pass no deleted, invalid, irregular or skipped file is in manifest, disk or backend |
| BackupFiles.FilesAreTaken | cmd/vidsync/backup.go:318-386 | every other file is there with the key of the index if it was uploaded or listed with it, and else keeps the key listed before, if any |
| BackupFiles.FailureIsReported | cmd/vidsync/backup.go:316-361 | an upload counts as failed exactly if the file was to be taken, was not listed with its key, and could not be uploaded |
| Backup.UploadChanged | cmd/vidsync/backup.go:316-361 | the loop over the index: manifest, present names, uploads, failures and the files in Dropbox |
| Backup.Tombstones | cmd/vidsync/backup.go:362-366 | a tombstone for exactly the names that are no longer present |
| Backup.BackupManager.BackupTarget | cmd/vidsync/backup.go:276-387 | the whole effect of a pass on memory, disk, backend and Dropbox, whatever fails, and its report |
| Backup.BackupManager.AddTarget | cmd/vidsync/backup.go:184-193 | adds the folder and persists |
| Backup.BackupManager.RemoveTarget | cmd/vidsync/backup.go:195-202 | forgets the folder and its manifest and persists |
| Backup.BackupManager.constructor | cmd/vidsync/backup.go:244-262 | a restart brings back what was persisted |
| Backup.ManifestIsOldPlusDeltas | cmd/vidsync/backup.go:316-386 | under any failures the new manifest is the old one with the deltas applied, plus files with an empty key that were never listed |
| Backup.DeltasMakeTheManifest | cmd/vidsync/backup.go:316-386 | old manifest and deltas make the new one exactly if every eligible file with an empty key was listed |
| BackupRuns.PassKeepsAgreement | cmd/vidsync/backup.go:304-386 | a pass leaves the new manifest everywhere, or the old one everywhere, and says which |
| BackupRuns.NoDeltasNoChange | cmd/vidsync/backup.go:367-386 | nothing to send means that the manifest is unchanged |
| BackupRuns.AlwaysAgree | cmd/vidsync/backup.go:184-386 | between passes of every history, memory, disk and backend agree |
| BackupRuns.OnePassConverges | cmd/vidsync/backup.go:276-386 | after any history one pass without failures makes manifest, disk and backend the eligible part of the index; Dropbox has it exactly if the files unchanged since the last manifest were there |
| BackupRuns.SettledRunsKeepFiles | cmd/vidsync/backup.go:276-386 | while the backend learns of every upload, Dropbox has all that manifests list |
| BackupRuns.SettledHistoryConverges | cmd/vidsync/backup.go:276-386 | then one pass without failures makes Dropbox have the eligible part of the index as well |
| BackupRuns.RevertedFileStaysWrong | cmd/vidsync/backup.go:276-386 | a file reverted after a failed sync keeps the other bytes in Dropbox after any number of later passes, whether they fail or not, and of restarts, while manifest, disk and backend are right |
| BackupFailures.IteratorErrorWithdrawsTheRest | cmd/vidsync/backup.go:318-366 | an error while reading the index withdraws the files not reached |
| BackupFailures.BrokenIterationMirrorsIndex | cmd/vidsync/backup.go:318-386 | after such an error manifest, disk and backend equal the eligible part of the whole index exactly if nothing eligible was left |
| BackupFailures.LostReplyLeavesAnOrphan | cmd/vidsync/backup.go:367-386 | a file put by a request whose reply was lost stays in the backend if it is deleted before the next pass |
| BackupFailures.LostReplyKeepsTheOtherKey | cmd/vidsync/backup.go:334-386 | a file that changes back after such a request passes for unchanged, and the backend keeps the other key |
| BackupFailures.LostReplyIsHealed | cmd/vidsync/backup.go:316-386 | one pass without failures makes the backend right after a lost reply exactly if each name the request put is eligible with a key other than the one the manifest lists, or gone but listed, and none it withdrew is back with the key listed |
| BackupHistory.NeverReturningConverges | cmd/vidsync/backup.go:276-386 | after any history of failed uploads and syncs, broken passes and restarts in which no file goes back to a key it had, one pass without failures makes manifest, disk, backend and Dropbox right |
| BackupPull.Teammate.BackupPull | cmd/vidsync/backup.go:681-746 | what is placed on disk, and how many materials were downloaded, skipped or failed |
| BackupPull.Teammate.PullOneMaterial | cmd/vidsync/backup.go:751-791 | a file is placed exactly if link, directory, size, key and rename are all right |
| BackupPull.FatesAre | cmd/vidsync/backup.go:713-791 | what becomes of a material: unwanted, already there, downloaded and verified, or failed |
| BackupPull.FileOfMaterial | cmd/vidsync/backup.go:681-746 | after a pull the file of a material has the downloaded bytes exactly if it was downloaded, and else is as it was |
| BackupPull.TallyAdds | cmd/vidsync/backup.go:681-746 | the counts of a pull are the sums of those of its parts |
| BackupPull.TallyOfOne | cmd/vidsync/backup.go:681-746 | and a single material counts by its fate, with its size if it was downloaded |
| BackupPull.OnlyVerifiedBytes | cmd/vidsync/backup.go:713-791 | whatever downloads bring, a file changes only to bytes with the key that a listed material of its name announces |
| BackupPull.PullBringsTheProject | cmd/vidsync/backup.go:681-746 | a pull without failures brings every live material |
| BackupPull.OwnerToTeammate | cmd/vidsync/backup.go:276-791 | from the index of the owner over pass and pull to the disk of the teammate |
| CaseFs.LowerToRealIsComplete | lib/fs/casefs.go:493-504 | the map has exactly the folded names of all children and sends each to a child that folds to it, although the loop compares a folded name with an unfolded one |
| CaseFs.CaseFilesystem.NewCaseNode | lib/fs/casefs.go:482-507 | a new node is what the directory holds now |
| CaseFs.CaseFilesystem.GetExpireAdd | lib/fs/casefs.go:452-466 | whatever was evicted or has expired, the node returned is what the directory holds now |
| CaseFs.CaseFilesystem.RealCase | lib/fs/casefs.go:419-444 | the cached lookup gives the result of the walk without a cache |
| CaseFs.RealWalkFindsRealName | lib/fs/casefs.go:419-444 | the result is an existing entry that folds equal component by component, exact matches win, and it fails only where no entry folds equal or a file is in the way |
| CaseFs.ExactNamesAreReal | lib/fs/casefs.go:419-444 | an existing entry is its own real name |
| CaseFs.OsReachesTheRealName | lib/fs/casefs.go:360-395 | the entry that the operating system reaches is the one the walk finds |
| CaseFs.CheckedMeansReal | lib/fs/casefs.go:360-395 | a name that passes the check and reaches an entry agrees with it in every component up to normalisation |
| CaseFs.OtherSpellingsAreRefused | lib/fs/casefs.go:378-395 | a name that differs from its real name in any component is refused with the real name in the error |
| CaseFs.CaseFilesystem.CheckCaseExisting | lib/fs/casefs.go:378-395 | the real name is compared component by component up to normalisation; a cache that is not outdated changes nothing |
| CaseFs.CaseFilesystem.CheckCase | lib/fs/casefs.go:360-374 | names that do not exist pass, existing ones only under their real name |
| CaseFs.CaseFilesystem.Mutate | lib/fs/casefs.go:177-186 | an operation that changes the tree succeeds only on a real or new name, and every cache entry stays right |
| CaseFs.CaseFilesystem.Inspect | lib/fs/casefs.go:156-175 | an operation that changes no names succeeds only on a real name |
| CaseFs.CaseFilesystem.Stat | lib/fs/casefs.go:199-212 | succeeds exactly for an existing entry under its real name |
| CaseFs.CaseFilesystem.Rename | lib/fs/casefs.go:236-252 | succeeds exactly if both names pass, or the new one is another spelling of the old one as given |
| CaseFs.CaseFilesystem.Walk | lib/fs/casefs.go:325-333 | drops the cache, then behaves like other operations that change no names |
| CaseRaces.FreshMeansUnchanged | lib/fs/casefs.go:452-507 | in every interleaving of listings, additions, changes and purges the cached nodes are right exactly if their directories look as they did when they were listed |
| CaseRaces.FreshUnlessOvertaken | lib/fs/casefs.go:177-186 | once the cache was dropped after the last change, they are right exactly if none whose directory looks different was listed before that change and added after the purge |
| CaseRaces.UninterruptedIsFresh | lib/fs/casefs.go:452-466 | so they are right if no change comes between a listing and its addition |
| CaseRaces.FreshStatIsRight | lib/fs/casefs.go:199-212 | with a cache that is right, entries are found exactly under their real names |
| CaseRaces.MissingIsLookedUpAgain | lib/fs/casefs.go:378-395 | even with a cache that is not right, an existing entry that it does not list is looked up again without it and found under its real name; other errors are believed |
| CaseRaces.OvertakenLookupMisleads | lib/fs/casefs.go:236-252 | a rename between listing and addition makes Lstat refuse the new name, and accept the old one on a file system that ignores case |
| CaseRaces.NodeStays | lib/fs/casefs.go:452-466 | such a node stays until it is purged, evicted or listed again after it has expired |
| Folding.IsASCII | lib/fs/folding.go:30-41 | whether all bytes are ASCII, and whether any of them is an upper-case letter |
| Folding.ToLowerASCII | lib/fs/folding.go:43-63 | copying runs of bytes amounts to lower-casing each byte |
| Folding.LettersAreLowered | lib/fs/folding.go:43-63 | each byte from A to Z becomes the letter 32 above it, and no other byte changes |
| Folding.UnicodeLowercaseNormalized | lib/fs/folding.go:19-28 | the three paths agree with one folding function |
| Folding.FoldIsIdempotent | lib/fs/folding.go:19-63 | folding twice is folding once, if that is so for what the Unicode path returns |
| Folding.FoldKeepsLength | lib/fs/folding.go:43-63 | ASCII names fold equal exactly if they have the same length and differ in the case of letters only |
| CaseFs.FoldingIsSane | lib/fs/folding.go:19-63 | what the case-folding layer needs of folding holds, given only that the Unicode path returns what folds to itself and is not empty |
| ConfigWrapper.Wrapper.Subscribe | lib/config/wrapper.go:189-194 | adds the subscriber and returns the configuration in effect |
| ConfigWrapper.Wrapper.Unsubscribe | lib/config/wrapper.go:199-212 | removes the first subscription of the committer and returns the change to wait for |
| ConfigWrapper.Wrapper.ModifyQueued | lib/config/wrapper.go:225-237 | queues a modification unless a thousand are waiting |
| ConfigWrapper.Wrapper.ReplaceLocked | lib/config/wrapper.go:304-328 | commits exactly if the configuration differs, can be prepared, and every verifier among the subscribers accepts it, and otherwise changes nothing |
| ConfigWrapper.Wrapper.HandleModification | lib/config/wrapper.go:239-276 | one round of the loop: what is committed, and when the save timer is started |
| ConfigWrapper.RoundOfServe | lib/config/wrapper.go:239-276 | the steps of the state machine amount to that method |
| ConfigWrapper.InvHolds | lib/config/wrapper.go:186-346 | the invariant of all interleavings of modifications, subscriptions, commits and saves |
| ConfigWrapper.ModificationsFormOneChain | lib/config/wrapper.go:225-328 | queued modifications are handled in order, each on the result of the one before, and committed exactly if they change something, can be prepared and are accepted; otherwise they change nothing |
| ConfigWrapper.CommittedMeansAccepted | lib/config/wrapper.go:239-328 | in every interleaving a handled modification was committed exactly if it asks for another configuration that can be prepared and that all verifiers subscribed at that time accept |
| ConfigWrapper.HandledInForce | lib/config/wrapper.go:239-328 | the configuration and subscriptions recorded with it are those in force at the step that handled it |
| ConfigWrapper.ChangesDoNotOverlap | lib/config/wrapper.go:278-292 | all commits of a change have finished before the next one is made, and subscribers are only told of the latest one |
| ConfigWrapper.CommitEndsFirst | lib/config/wrapper.go:189-345 | in every run a subscriber that has begun to commit a change has finished before another change is committed, before the next modification is taken up, and before its Unsubscribe returns |
| ConfigWrapper.SubscribersSeeOneChain | lib/config/wrapper.go:330-346 | every subscriber sees an unbroken chain of changes, and all of them once commits have finished |
| ConfigWrapper.SubscribeReturnsTheStart | lib/config/wrapper.go:189-194 | this chain begins with what Subscribe returned |
| ConfigWrapper.SubscribedUntilUnsubscribed | lib/config/wrapper.go:189-213 | in every run each subscription is in force unless Unsubscribe was called for it |
| ConfigWrapper.UnsubscribedForGood | lib/config/wrapper.go:199-212 | when Unsubscribe has returned, the subscriber is not being told of any change and never will be |
| ConfigWrapper.EverythingIsHandled | lib/config/wrapper.go:174-328 | from wherever a run has come, unless the server was stopped, server and goroutines can go on by themselves until every queued modification is handled, every subscriber told, and nobody kept waiting in Unsubscribe |
| ConfigWrapper.UnsavedMeans | lib/config/wrapper.go:239-328 | in every run the configuration is unsaved exactly if a modification was committed and no save has succeeded since |
| ConfigWrapper.UnsavedWithoutTimer | lib/config/wrapper.go:239-302 | in every run a change is unsaved without a timer exactly if a save by the timer, or the last one when the server stops, has failed, and since then no modification asked for another configuration and no save succeeded |
| ConfigWrapper.UnsavedHasTimer | lib/config/wrapper.go:239-302 | so if saves by the timer succeed, an unsaved change has its timer running while the server runs |
| ConfigWrapper.FailedSaveIsNotRetried | lib/config/wrapper.go:239-302 | after such a save has failed, no continuation without taking up a modification, saving or stopping saves the change or starts a timer |
| ConfigWrapper.FailedLastSaveIsFinal | lib/config/wrapper.go:239-302 | after the last save has failed nothing but a save from outside saves the change |
| ConfigLists.EnsureExistingDevices | lib/config/config.go:625-638 | what the loop that moves the last element into the gap leaves of unknown devices |
| ConfigLists.EnsureNoDuplicateFolderDevices | lib/config/config.go:640-656 | the same for duplicates |
| ConfigLists.EnsureNoDuplicateOrEmptyIDDevices | lib/config/config.go:658-674 | the same for duplicates and empty IDs |
| ConfigLists.SurvivorsComeFromList | lib/config/config.go:625-674 | nothing is invented or multiplied |
| ConfigLists.KnownSurvive | lib/config/config.go:625-638 | all entries of known devices stay, as often as they were there, and no others |
| ConfigLists.OneOfEachSurvives | lib/config/config.go:640-674 | exactly one entry stays for each ID, and none for the empty one where that is to go |
| ConfigLists.CleanListSurvives | lib/config/config.go:625-674 | a clean list is left as it is, in its order |
| ConfigFirsts.FirstOrLastSurvives | lib/config/config.go:640-656 | of the entries for a device the first one survives if the devices before it and after the last one are enough to fill the places before it, otherwise the last one, and no other |
| ConfigFirsts.FirstsSurvive | lib/config/config.go:640-656 | so the first entry of every device stays exactly if for each with a different last entry there are enough devices around |
| ConfigFirsts.DuplicatesLast | lib/config/config.go:640-656 | if all duplicates come after the first entries, exactly these stay, in order |
| ConfigFirsts.EmptyCountsAsSeen | lib/config/config.go:658-674 | removing empty IDs as well amounts to having seen that ID before |
| ConfigFirsts.NotAlwaysTheFirst | lib/config/config.go:640-656 | a duplicate at the beginning lets the last entry of the next device take the place of its first |
| ConfigLists.EnsureNoUntrustedTrustingSharing | lib/config/config.go:676-690 | removes in place exactly the shares in plain text with untrusted devices |
| ConfigLists.EnsureDevicePresent | lib/config/config.go:608-623 | adds our own device if it is missing |
| ConfigLists.EnsureMyDevice | lib/config/config.go:303-318 | adds our own device with its name if it is missing |
| ConfigShares.PrepareDeviceList | lib/config/config.go:333-350 | the devices strictly sorted, one for each non-empty ID, and an index of them |
| ConfigShares.PrepareFolder | lib/config/folderconfiguration.go:312-325 | the devices of a folder, cleaned up and strictly sorted; every look-up finds its device |
| ConfigShares.PreparedIsShareList | lib/config/folderconfiguration.go:312-325 | they are known, none is untrusted in plain text, and no known device is lost but for that reason |
| ConfigShares.PreparedSharesMean | lib/config/folderconfiguration.go:312-325 | sorted by ID, known, listed in the folder but for our own, and not in plain text to an untrusted device |
| ConfigShares.SharesAreNotLost | lib/config/folderconfiguration.go:312-325 | a known device of the folder stays unless one of its entries would give it plain text although it is not trusted |
| ConfigShares.PreparedFolderStays | lib/config/folderconfiguration.go:312-325 | a second time changes nothing, even where our own device is not trusted |
| ConfigDevices.DeduplicateObservedFoldersToMap | lib/config/deviceconfiguration.go:111-120 | the map to the latest observation of each folder |
| ConfigDevices.LatestIs | lib/config/deviceconfiguration.go:111-120 | it is the first of the latest ones, and there is one for each folder |
| ConfigDevices.SortedObservedFolderSlice | lib/config/deviceconfiguration.go:100-109 | the entries of the map, each once, sorted by time |
| ConfigDevices.PrepareDevice | lib/config/deviceconfiguration.go:53-78 | default address, ignored folders without shared ones, and what untrusted devices may not do |
| ConfigDevices.PreparedDeviceMeans | lib/config/deviceconfiguration.go:53-78 | name, trust and addresses are kept, the default address is filled in, an untrusted device introduces and accepts nothing, and of each ignored folder that is not shared the latest observation stays |
| ConfigDevices.PreparedDeviceStays | lib/config/deviceconfiguration.go:53-78 | a second time changes nothing but the order of folders ignored at the same time |
| ConfigDevices.FilterURLSchemePrefix | lib/config/config.go:714-726 | removes in place exactly the addresses of deprecated schemes |
| ConfigDevices.AddressesMean | lib/config/config.go:714-726 | of the addresses, or the default one, exactly those whose scheme begins with a deprecated one go |
| ConfigDevices.AddressesSettle | lib/config/deviceconfiguration.go:53-56 | preparing the addresses again changes nothing exactly if, the default filled in, a non-empty address or two addresses are not deprecated; a third time never does |
| ConfigPrepare.AcceptedIffAcceptable | lib/config/config.go:360-373 | accepted are exactly configurations whose folders have distinct non-empty IDs and non-empty paths |
| ConfigPrepare.FirstErrorMeans | lib/config/config.go:360-373 | the error is that of the first folder that is not acceptable beside those before it: no ID, else no path, else an ID used before |
| ConfigPrepare.PrepareFolders | lib/config/config.go:352-387 | the error of the first bad folder, or all folders prepared and strictly sorted, with the map of what is shared with whom |
| ConfigPrepare.PrepareDevices | lib/config/config.go:476-480 | each device prepared with the folders shared with it, deprecated addresses removed |
| ConfigPrepare.PrepareIgnoredDevices | lib/config/config.go:482-495 | the ignored devices that are not configured, in order |
| ConfigPrepare.Prepare | lib/config/config.go:276-296 | which configurations are accepted, with which error, and how the result comes from the input |
| ConfigPrepare.PreparedIsNormal | lib/config/config.go:303-390 | every accepted configuration is brought into normal form: sorted duplicate-free lists with our own device, shares within the devices and not in plain text to untrusted ones, no device ignoring what is shared with it, ignored devices disjoint from devices |
| ConfigPrepare.NormalMeans | lib/config/config.go:303-390 | what the normal form says of each device and folder, without the predicates |
| ConfigPrepare.PreparedDevicesMean | lib/config/config.go:303-350 | the devices are those given with an ID, and our own, sorted by ID |
| ConfigPrepare.PreparedDevicesComeFrom | lib/config/config.go:303-350 | each has name and trust of an entry for it; only without one our own has the name of the host |
| ConfigPrepare.PreparedFoldersMean | lib/config/config.go:352-387 | every folder is there once with its path and kind, sorted by ID |
| ConfigPrepare.StringLeMeans | lib/config/config.go:383-386 | sorted by ID means by the first character that differs, a prefix before what it is a prefix of |
| ConfigPrepare.PreparedIgnoredMean | lib/config/config.go:482-495 | ignored devices stay, as often as they were listed, unless they are configured |
| ConfigPrepare.PreparedStays | lib/config/config.go:276-301 | preparing again changes none of these lists, up to the order of folders ignored at the same time |
| ConfigPrepare.PreparedDeviceKeeps | lib/config/config.go:276-301 | so a device keeps everything but its addresses, of which deprecated ones go |
| Migrations.Apply | lib/config/migrations.go:71-82 | sorts the set and applies it in order, reaching at least every target |
| Migrations.EachRunsOnce | lib/config/migrations.go:71-103 | of migrations in order exactly those with a target above the version run, each once and in order |
| Migrations.ListingOrderDoesNotMatter | lib/config/migrations.go:71-82 | with distinct targets the result does not depend on the order of listing |
| Migrations.SameTargetTwice | lib/config/migrations.go:95-103 | of two migrations with one target only the first is applied, so that order shows exactly if they differ |
| Migrations.VersionReached | lib/config/migrations.go:95-103 | the version reached is the highest target or the start |
| Migrations.SecondTimeChangesNothing | lib/config/migrations.go:71-103 | applying the set again changes nothing |
| Migrations.InTwoStepsOrInOne | lib/config/migrations.go:71-103 | upgrading by way of an older release, cut at any version, gives the same as in one go |
| FolderOverlap.StringPrefixMeansBelow | lib/config/config.go:397-422 | a path with a separator is a prefix of another as a string exactly if the latter lies below it |
| FolderOverlap.CheckFolderPathOverlap | lib/config/config.go:397-422 | accepts exactly if no other folder is in the way, and else describes the first one that is |
| FolderOverlap.DescriptionMeans | lib/config/config.go:397-422 | which folder the error names, how its path and that of the candidate lie to each other, and that none before it is in the way |
| FolderOverlap.WhatTheCheckMeans | lib/config/config.go:397-422 | accepted is exactly what is apart from all others, but for the root of the file system |
| FolderOverlap.RootIsOverlooked | lib/config/config.go:410-419 | the root of the file system is accepted although it contains every folder |
| FolderOverlap.SetFolders | lib/config/config.go:592-606 | each new folder takes the place of the last one with its ID, or is appended |
| FolderOverlap.OneFolderSet | lib/config/config.go:592-606 | setting one folder changes the one with its ID, and appends it only if there is none |
| FolderOverlap.SetFolderKeepsApart | lib/config/config.go:397-422 | storing an accepted candidate keeps all roots apart |
| FolderOverlap.FoldersStayApart | lib/config/config.go:588-606 | over every history of candidates of which the accepted ones are stored, all roots stay apart |
| FolderOverlap.LastCandidate | lib/config/config.go:397-422 | in every history a candidate is stored, and all folders with other IDs are kept, exactly if it is apart from these but for the root; otherwise nothing changes |
| FakeFile.FakeFile.ReadShort | lib/fs/fakefs.go:794-875 | the bytes, the number of them, the error and the state of the handle after a short read of a generated file into part of a buffer; the rest of the buffer is untouched |
| FakeFile.FakeFile.Read | lib/fs/fakefs.go:765-769 | a short read at the offset of the handle |
| FakeFile.FakeFile.ReadAt | lib/fs/fakefs.go:771-792 | ends, and amounts to short reads until the buffer is full or there is an error |
| FakeFile.FakeFile.SeekTo | lib/fs/fakefs.go:877-904 | the new offset or the error, and that the generator is given up |
| FakeFile.FakeFile.WriteBytesAt | lib/fs/fakefs.go:913-936 | the new offset and size, without content |
| FakeFile.FakeFile.TruncateTo | lib/fs/fakefs.go:947-966 | the new size and offset |
| FakeFile.ShortReadIsRight | lib/fs/fakefs.go:794-875 | the kept generator always stands where the next byte in sequence comes from, so that short reads return the bytes of the fixed function |
| FakeFile.ReadOnIsRight | lib/fs/fakefs.go:771-792 | the same for full reads |
| FakeFile.ReadOnStopsThere | lib/fs/fakefs.go:771-792 | a full read has exactly the bytes the file has from the offset on, up to the buffer, and reports the end exactly if the buffer is not full |
| FakeFile.FullReadsAreExact | lib/fs/fakefs.go:765-966 | after any operations, also through other handles, a full read depends on nothing but name, size and offset |
| FakeFile.ShortReadsAgree | lib/fs/fakefs.go:765-966 | and so does a read in sequence, which returns something unless nothing was asked for or the file is at its end |
| FakeFile.SeekFromEndCountsBackwards | lib/fs/fakefs.go:885-892 | seeking from the end agrees with the interface exactly for distance zero |
| FakeFile.SeekMoves | lib/fs/fakefs.go:877-904 | where the handle stands after each kind of seek, and when it is an error |
| FakeFile.WritesAndTruncationsMove | lib/fs/fakefs.go:913-966 | where the handle stands and the file ends after a write or a truncation |
| FakeFile.ReadsFollowSeeks | lib/fs/fakefs.go:794-904 | after any operations a read that follows a seek has the bytes from the target on |
| FakeFile.ReadsFollowEachOther | lib/fs/fakefs.go:765-875 | the first read of a handle begins at the start of the file, and the second where the first has ended |
| FakeFile.BytesOfFullRead | lib/fs/fakefs.go:771-875 | each byte of a full read, after any operations, in terms of the generator seeded for its block |
| FakeContent.ContentFile.ReadShort | lib/fs/fakefs.go:794-830 | copies what fits of the contents from the offset on, moves the offset, and reports the end of the file |
| FakeContent.ContentFile.Read | lib/fs/fakefs.go:765-769 | the same at the offset of the handle |
| FakeContent.ContentFile.ReadAt | lib/fs/fakefs.go:771-792 | ends with all bytes from the offset on for which there is room, and reports the end of the file exactly if there is room for more |
| FakeContent.ContentFile.WriteBytesAt | lib/fs/fakefs.go:913-936 | writes in place, or into a new buffer if the contents get longer |
| FakeContent.ContentFile.TruncateTo | lib/fs/fakefs.go:947-966 | takes a new buffer only if the capacity does not suffice |
| FakeContent.WriteMeans | lib/fs/fakefs.go:913-936 | a write puts the bytes at the offset, fills a gap with zeros and leaves all others, whatever the buffer holds |
| FakeContent.TruncateMeans | lib/fs/fakefs.go:947-966 | a truncation cuts or extends with zeros exactly if it does not bring back bytes that were cut off |
| FakeContent.ResizedMeans | lib/fs/fakefs.go:947-966 | cut or extended with zeros, byte by byte |
| FakeContent.AlwaysAsMeant | lib/fs/fakefs.go:913-966 | over all sequences of writes and truncations the file is always as meant exactly if none of the truncations does so |
| FakeContent.CutOffComesBack | lib/fs/fakefs.go:947-966 | a byte that is written and cut off is there again when the file is made longer |
| FakeContent.NeverRegrownIsAsMeant | lib/fs/fakefs.go:913-966 | if no truncation makes the file longer after one has made it shorter, it is always as meant |
| FakeContent.WrittenIsRead | lib/fs/fakefs.go:771-936 | what was written is read back, all other bytes stay, and gaps read as zeros |
| EventBus.Logger.Log | lib/events/events.go:337-368 | every subscription with a bit of the type in its mask is sent the event with its own number |
| EventBus.Logger.Subscribe | lib/events/events.go:370-402 | a new subscription starts at number one |
| EventBus.Logger.Unsubscribe | lib/events/events.go:404-422 | removes a subscription together with its own counter |
| EventBus.EachIsSentItsOwn | lib/events/events.go:343-366 | a subscription is sent the event once with its next number exactly if its mask and the type have a bit in common |
| EventBus.CommonBit | lib/events/events.go:343-347 | mask and type select each other exactly if some bit is set in both |
| EventBus.MasksSelectTypes | lib/events/events.go:343-347 | a mask with the bits of two masks selects what either of them selects |
| EventBus.MaskWithAllBits | lib/events/events.go:343-347 | a mask with every bit of an event type selects it, if the type is not zero |
| EventBus.NoMask | lib/events/events.go:343-347 | the empty mask selects nothing |
| EventBus.OthersAreNotSent | lib/events/events.go:343-366 | others are not sent anything |
| EventBus.EverySubscriptionIsServed | lib/events/events.go:337-422 | in every interleaving a subscription is sent exactly the matching events logged while it lasts, numbered from one on |
| EventBus.SubscribersSeeIncreasingNumbers | lib/events/events.go:337-368 | the numbers received increase, and exactly those of dropped events are missing |
| BufferedEvents.BufferedSubscription.Receive | lib/events/events.go:499-508 | the ring holds the latest events |
| BufferedEvents.BufferedSubscription.Since | lib/events/events.go:510-539 | returns what the ring holds that is newer, waits while there is nothing, and returns nothing new on a timeout |
| BufferedEvents.RingIsBlanksAndLast | lib/events/events.go:499-508 | the ring in order is blanks followed by the latest events |
| BufferedEvents.SinceMeans | lib/events/events.go:528-536 | exactly the newer ones of the latest events in order; for a negative number the blanks too |
| BufferedEvents.PollGetsTheRest | lib/events/events.go:510-539 | a client gets all it has not seen if that fits the ring |
| BufferedEvents.PollingMissesNothing | lib/events/events.go:510-539 | a client that polls with the last number it has gets every event exactly once if no more arrive between two polls than there are slots |
| BufferedEvents.EachEventIsPolled | lib/events/events.go:510-539 | so each event that arrives is among those the client gets |
| BufferedEvents.OneTooManyIsLost | lib/events/events.go:499-508 | with one event more the oldest is lost |
| RateLimit.LimitedConnection.Limit | lib/connections/limiter.go:340-348 | the smallest limit of all |
| RateLimit.LimitedConnection.WaitN | lib/connections/limiter.go:329-338 | takes the tokens from every limiter, never more than the burst size at once |
| RateLimit.LimitedConnection.Take | lib/connections/limiter.go:300-324 | splits any number of tokens into calls of at most the burst size that add up to it |
| RateLimit.LimitedConnection.Write | lib/connections/limiter.go:248-280 | what is written is a prefix of the buffer, all of it without error; tokens are taken in equal pieces, as many as bytes on success, at most one piece too many on an error |
| RateLimit.LimitedConnection.WriteInPieces | lib/connections/limiter.go:266-279 | the same for the loop, which ends |
| RateLimit.LimitedConnection.Read | lib/connections/limiter.go:233-239 | as many tokens as bytes were read |
| RateLimit.SingleWritesAreFit | lib/connections/limiter.go:259-264 | under any limit the size of single writes is a whole number of KiB, at least one and at most the burst, and about what 10 ms allow |
| RateLimit.PiecesAddUp | lib/connections/limiter.go:300-324 | the pieces add up, none is too large, and all but the last are full |
| DeviceLimiters.Limiter.constructor | lib/connections/limiter.go:45-59 | limiters are up to date with the first configuration |
| DeviceLimiters.Limiter.SetLimitsLocked | lib/connections/limiter.go:62-86 | both limits of the device are the configured ones, also when nothing had to be changed |
| DeviceLimiters.LimitsMean | lib/connections/limiter.go:62-86 | writing to a device is limited by its sending rate in KiB and reading by its receiving rate, and a rate that is not positive means no limit |
| DeviceLimiters.OverallMeans | lib/connections/limiter.go:123-172 | the same for the overall limits |
| DeviceLimiters.ConfiguredAsListed | lib/connections/limiter.go:89-121 | the limit of a configured device other than our own is that of its entry |
| DeviceLimiters.Limiter.ProcessDevicesConfigurationLocked | lib/connections/limiter.go:89-121 | limits of new devices are set, devices that are gone are dropped, all others stay |
| DeviceLimiters.Limiter.CommitConfiguration | lib/connections/limiter.go:123-172 | what any change does to the limits of the devices and to the overall ones; all are up to date if they were and the change follows on the latest one |
| DeviceLimiters.OvertakenFirstCommit | lib/connections/limiter.go:45-59 | if one change overlaps with the making of a limiter, all limits are right in the end exactly if its own commit comes first, or its copy is of the new configuration, or every limit of the old one is also in the new one |
| DeviceLimiters.RemovedDeviceIsHarmed | lib/connections/limiter.go:45-59 | the removal of a device is a change for which the last of these fails |
| DeviceLimiters.Limiter.GetLimiters | lib/connections/limiter.go:179-185 | a connection gets the configured limits, or none for a device that is not configured |
| DeviceLimiters.ExactlyTheConfigured | lib/connections/limiter.go:89-121 | while limiters are asked for configured devices only, there is one for each of these and no other |
| ObservedDb.ObservedDB.AddOrUpdatePendingFolder | internal/db/observed.go:116-119 | stores the observation under the key of device and folder |
| ObservedDb.ObservedDB.RemovePendingFolderForDevice | internal/db/observed.go:122-125 | removes that key |
| ObservedDb.ObservedDB.RemovePendingFolder | internal/db/observed.go:128-140 | removes exactly the keys with three parts of which the last is the ID |
| ObservedDb.ObservedDB.PendingFoldersForDevice | internal/db/observed.go:154-197 | lists exactly the valid entries under the prefix and removes the invalid ones |
| ObservedDb.PartsOfKey | internal/db/observed.go:129-134 | a key has three parts exactly if the folder ID has no slash, and these are device and folder |
| ObservedDb.KeysAreDistinct | internal/db/observed.go:116-119 | different offers have different keys, whatever the IDs look like |
| ObservedDb.PrefixSelectsDevice | internal/db/observed.go:155-158 | the keys with the prefix of a device are those of that device |
| ObservedDb.AddSetsOne | internal/db/observed.go:116-119 | adding sets one offer and changes no other |
| ObservedDb.RemoveClearsOne | internal/db/observed.go:122-125 | removing clears one offer and no other |
| ObservedDb.RemoveFolderClearsOneFolder | internal/db/observed.go:128-140 | removing a folder clears it for all devices and nothing else; one with a slash is never found |
| ObservedDb.ListingClearsEmpty | internal/db/observed.go:169-193 | listing removes only offers with an empty ID |
| ObservedDb.ListingRemoves | internal/db/observed.go:154-197 | listing removes exactly the keys with the prefix and three parts whose device, folder ID or value is not valid |
| ObservedDb.ListingIsTheMap | internal/db/observed.go:154-197 | the listing is the restriction of the map from pairs to one device, or all of it, without empty IDs and IDs with a slash |
| ObservedDb.OthersAreUntouched | internal/db/observed.go:116-197 | keys of other parts of the store stay as they are |
| ObservedDb.StoreIsTheMap | internal/db/observed.go:116-197 | after any sequence of operations with IDs that are neither empty nor contain a slash, the store holds what a map from pairs of device and folder would hold |

## Left out

Contracts that promise less than the code:

- CaseFs.CaseFilesystem.GetExpireAdd: lists and adds in one step, with no change in between; this is what
  CaseRaces adds.
- CaseFs.CaseFilesystem.Mutate: is one call at a time; changes and purges that overlap are in CaseRaces.
- CaseFs.CaseFilesystem.Stat: likewise; CaseRaces says when the equivalence fails.
- EventBus.Logger.Unsubscribe: the code closes the channel of the subscription even if it is not found,
  so that a second call panics; here channels are not closed, and a second call does nothing.
- RateLimit.SingleWritesAreFit: is about limits. If the limit is lifted between the two times at which a
  write reads it, the code converts infinity to a whole number, which gives no usable size.
- BackupRuns.SettledHistoryConverges: is about histories in which the backend learns of every upload;
  those with failed syncs are the subject of BackupHistory.NeverReturningConverges.
- FolderOverlap.CheckFolderPathOverlap: has one root and "/" as the separator. On Windows every root of
  a drive ends in its separator and is overlooked in the same way.
- FakeFile.FakeFile.ReadShort: is about files without stored contents; the branch for the others is
  FakeContent.ContentFile.ReadShort.
- FakeFile.FakeFile.WriteBytesAt: likewise; the bytes are in FakeContent.ContentFile.WriteBytesAt.
- FakeFile.FakeFile.TruncateTo: likewise; see FakeContent.ContentFile.TruncateTo.

Of the modelled parts:

* Dialling: a dial and the exchange of certificates are outcomes chosen by the surroundings. The
  overall limit on dials that devices share is not part of the model, only the limit of eight for
  each device; a cancelled context is a dial that fails. `dialDevices` and what it does with
  connections beyond its limit are left out.
* Sessions: the random tokens, and writing the map to the database some time later. Expiry times
  are unbounded numbers; the comparison of 64-bit times on a platform with 32-bit integers is not
  modelled.
* Backup: status fields, progress events and logging; the mapping of file names to Dropbox paths,
  which is one directory for each folder here; the contents of files, of which only the content key
  is known. Persisting succeeds, folders are removed between passes, and the backend forgets the
  materials of a folder that is removed. Files are never deleted from Dropbox by the code, so
  convergence says that Dropbox has the eligible files, not that it has no others.
* Case folding: Unicode folding and normalisation are parameters (folding twice is folding once, and
  only the empty name folds to the empty name). Listing a directory fails only because it does not
  exist or is a file. Operations of the underlying file system take effect entirely or not at all,
  and nothing but these operations changes it; a rename compares the old name as it was given. Which
  entries the cache loses, and when they expire, is arbitrary.
* Changing the configuration: which committers want a restart; the events about saved
  configurations. A committer that is no verifier is one that accepts everything.
* Preparing the configuration: clamping of single numbers, the defaults for new folders and devices
  (prepared by the same two functions), options, user interface settings and missing values.
  Migrations come last and are modelled on their own with arbitrary converters; the normal form is
  that of a configuration to which none applies. Whether an address can be parsed, and its scheme,
  is a parameter. Configurations are values: sharing of slices between copies is not modelled.
* Overlapping folders: expansion of the home directory, resolution of symbolic links and lower-casing
  on some platforms are one function from configured paths to directories. `SetFolders` overwrites
  the slice it is given while it filters it; the model returns the result only.
* Fake files: numbers are unbounded, so that overflow of 64-bit
  offsets and seeds is not modelled, nor are negative offsets and sizes where contents are kept, for
  which the code panics; the generator is any function from its seed and position.
* Events: types and masks are non-negative numbers of any size. The capacity of channels and the length
  of timeouts are left out; every event sent may time out. What
  happens when the logger itself is stopped.
* Bandwidth: the passing of time in the token buckets and changes of limits in the middle of a
  write. Rates are whole numbers. A connection keeps the limiters it began with when its device is
  removed from the configuration and added again; the model has the rates of the table only.
* Offers: errors of the store; pending devices, which have keys of one part.

Entirely left out, since they are input and output, plumbing or reflection: the user interface, tray
and system integration, video and OAuth code of the desktop application; the HTTP interface; the
transports and discovery; reading and writing configurations as XML and JSON; the database; the
block exchange protocol and the folder model; metrics and logging.
