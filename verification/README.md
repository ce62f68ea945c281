# Verification model of DiscordDrive Next

A Dafny 4.11 model of the parts of the repository where state, protocols and hand-written parsers meet, with proofs of
what they promise. `dafny verify dfyconfig.toml` checks everything. Nothing of the original program is executed.

## What is modelled

**The writable disk's upload queue** (`apps/desktop/src/vdisk.ts`). `OutboxState` has the queue as a value: the list of
copies, the copy in flight, the burst counters and the directory, with every operation and the exact order of its
file-system calls. `OutboxQueue` has it as the object it is, each method proved to do what the value operation does.
Over it:
- `OutboxOverlay` lays the queue over the account (a map from folder and name to bytes) and proves, request by request
  and however far the account gets with it, exactly when the disk shows what a plain file system would; `OutboxCommit`
  does so for an upload's end and its follow-up. `OutboxSteps` lifts that to every run, restarts included, and
  `OutboxRuns` gives conditions on the queue under which a run is always right;
- `OutboxCrash` cuts an operation after any of its file-system calls and restarts; `OutboxRestart` is what the disk
  shows afterwards; `OutboxKeys` is the queue as the Map it is, also when its numbers are out of order;
- `OutboxProgress` conserves the bytes of a burst and thins out its reports; `OutboxListing` is the merged listing.

**Caches.** `FragCache` has the records of the byte-bounded fragment cache, its trim and the pinning; `FragDisk` the
cache object over its directory, with writes cut short and restarts; `FragFront` the memory front before it. `Lru` is
the bounded map of the application core, proved to be exact least-recently-used by stack distance (a lookup counts as
use, other than the comment at `apps/web-mo/src/app-core.ts:2801` says; the model follows the code).

**Protocols.** `Framing` (length-prefixed requests on a socket), `DiskDownload` (download with partial file and
journal, cut short at any point), `CreditStream` (worker, channel and service worker with pulls and credits), `Keyset`
and `FolderFiles` (paging by key through a folder that changes).

**Printers and parsers.** `PrettyJson`, `Delimited` (CSV and TSV), `CommandLine` and `TaskXml` (Windows quoting inside
XML), `Crc32` and `PngText` (checksum by table, text chunks in a PNG), `Markdown` and `MarkdownBlocks`.

**Small algorithms.** `GalleryDays` (greedy day headings are optimal), `Speed` (pruned moving average). `Basics` and
`Texts` are shared.

## Claims that do not hold, and when they do

Each is kept as the code has it; the named lemma gives the exact condition.

- *The queue over the account is a plain file system.* In any run the disk shows the plain file system after every
  event if and only if each rename, each removal the account fails, each end of an upload and each restart meets its
  condition below: `OutboxSteps.ShowsPlainIff`. Conditions that can be read off the queue and are enough: renames keep
  to `RenameOk` (what goes onto a name is younger than every queued copy of it; the copy in flight goes only onto a name
  nothing queued has; a file of the account goes over queued copies, or to the place the upload is aimed at, only with
  a queued copy), a request the account does not carry out has nothing queued at its name, no upload begins past an
  older copy of its name (`StartOk`), what follows an upload in the account succeeds, and restarts have nothing to lose:
  `OutboxRuns.RunsShowAPlainFileSystem`.
- *A rename on the disk shows at once.* It does if and only if no younger queued copy already covers the new name
  with other bytes: `OutboxOverlay.RenameShows`.
- *A rename refused or failed changes nothing.* The queued copies are renamed before the new name is checked and the
  account asked. The queue stays as it was if and only if nothing queued has the old name
  (`OutboxOverlay.RefusedRenameKeepsQueue`); what shows stays if and only if the account did not move its file and, with
  something queued at the old name, the account shows there what the queue did and what went onto the new name is
  covered by a younger copy or has the bytes shown there, with nothing queued there, the account trashed no file in
  sight at the new name (`OutboxOverlay.RefusedRenameShows`).
- *A removal the account fails changes nothing.* If and only if nothing queued has the name or the account shows there
  what the queue did: `OutboxOverlay.RemoveFailShows`.
- *The end of an upload does not show.* If and only if `OutboxCommit.CommitKeeps`, whatever becomes of the follow-up,
  whose errors are only logged: `OutboxCommit.CommitShows`. Concrete ways to lose it:
  `OutboxRuns.UploadPastOlderShowsOlder`, `OutboxRuns.FailedUnderYoungerComesBack`,
  `OutboxRuns.TrashedRetryTakesYounger`, `OutboxRuns.FailedFollowUpShowsOldName`.
- *The queue is the same after a restart.* If and only if the directory is read by number, nothing is in the trash and
  no name is local-only: `OutboxCrash.RestartKeepsQueueIff`. A file removed during its upload comes back:
  `OutboxCrash.RemovedFileComesBack`.
- *The disk shows the same after a restart.* Read in any order, if and only if each queued place showed the copy read
  last, and each local-only name what the account has: `OutboxRestart.RestartShowsIff`. Read by number, if and only if
  no place's youngest copy is a removed one and no local-only name is queued, but with the bytes shown there:
  `OutboxRestart.OrderedRestartShowsIff`; also when the agent is killed between an upload's commit and the drop of its
  copy: `OutboxRestart.KilledShowsIff`.
- *A copy taken is the newest of the queue.* If and only if its number is not queued and is above the numbers of the
  copies it does not replace; a clock set back between two runs breaks it: `OutboxKeys.TakenJoinsIff`.
- *The burst's total is what is done plus what waits.* In any run it is after every event if and only if no rename
  carries bytes across the local-only boundary and no upload ends for a copy renamed to a local-only name, but an empty
  or the last one: `OutboxProgress.AlwaysBalancedIff`, from `OutboxProgress.RenameBalancedIff` and
  `OutboxProgress.EndBalancedIff`.
- *The fragment cache answers with nothing or the fragment.* A write cut short (a full disk, a killed process) leaves a
  short file, which the next process records as it is: `FragDisk.CutShortIsRead`. Over any history of processes every
  answer is true if and only if no process keeps a short file of those it finds: `FragDisk.AlwaysTruthfulIff`.
- *Every request on the socket is handed on.* If and only if every frame is JSON; the first that is not stays in front of
  the buffer, and nothing behind it is handed on: `Framing.FramesSurviveCutting`.
- *Fragments of open files stay in the cache* (comment at `apps/desktop/src/vdisk.ts:197`). The version of a fragment
  left by an earlier run is not recorded. So a trim leaves a fragment of an open version if and only if this process
  stored it, or what is left fits once all older fragments that may go are gone: `FragDisk.OpenFragmentStaysIff`, from
  `FragCache.TrimStaysIff`. One that goes: `FragDisk.LeftoverGoes`.
- *The comparison of `list` is an order.* It is antisymmetric if and only if no key without a number meets one with
  the number 0: `Keyset.CompareFlipsIff`. The keys of one listing are all of one sort, so the order is total there.
- *`more` means rows left.* It means text left. That text has no row if and only if it is one empty quoted field:
  `Delimited.RestWithoutRows`.
- *A command line survives XML.* If and only if no argument holds a carriage return: `TaskXml.TaskGetsItsArguments`.
- *A PNG's text entries read back.* If and only if both texts are Latin-1 and the keyword has no zero:
  `PngText.TextReadBack`.
- *A heading's `days` is the number of its days.* If and only if no day comes back after another:
  `GalleryDays.DaysCounted`. All sorted timelines are counted right if and only if the local calendar never comes back
  to a day it left, as it can where clocks are set back past midnight: `GalleryDays.SortedDaysCounted`.
- *The pruned samples give the same rate as all of them.* If and only if the window begins before the second sample kept
  (so right after a sample), or the line through the two oldest samples kept gives the bytes the history has at the
  window's edge, or both leave a rate of 0: `Speed.SpeedMeter.RateIsExactIff`. A state where it does not:
  `Speed.LateRateDiffers`.

## Model

| member | source | states |
|---|---|---|
| OutboxValid.AddValid | apps/desktop/src/vdisk.ts:301-316 | taking a copy keeps list, directory and copy in flight in agreement: a target stored exactly for the copies queued, with their bytes and place |
| OutboxValid.RenameValid | apps/desktop/src/vdisk.ts:351-363 | so does renaming queued copies, the one in flight included |
| OutboxValid.RemoveValid | apps/desktop/src/vdisk.ts:364-374 | so does removing them; the one in flight stays, in the trash |
| OutboxValid.BeginValid | apps/desktop/src/vdisk.ts:410-411 | so does the begin of an upload |
| OutboxValid.EndValid | apps/desktop/src/vdisk.ts:423-427 | so does its end |
| OutboxValid.FailValid | apps/desktop/src/vdisk.ts:444-451 | so does a failure for now |
| OutboxFacts.NewestSpec | apps/desktop/src/vdisk.ts:341-345 | the copy a place shows is the one with the greatest number among those not in the trash |
| OutboxFacts.AddCallsEffect | apps/desktop/src/vdisk.ts:301-316 | the file-system calls of taking a copy leave the directory without the replaced copies and with the new one |
| OutboxOverlay.UploadShows | apps/desktop/src/vdisk.ts:660-665 | a file written shows at once in place of what was there; a refused name changes nothing |
| OutboxOverlay.RemoveShows | apps/desktop/src/vdisk.ts:677-682 | a file removed is gone at once, queued, in flight or only in the account |
| OutboxOverlay.RenameShowsAt | apps/desktop/src/vdisk.ts:668-681 | what every place shows after a rename of queue and account |
| OutboxOverlay.RenameShows | apps/desktop/src/vdisk.ts:668-681 | a rename shows as a plain rename if and only if no younger copy covers the new name; it is answered with success if and only if the old name shows |
| OutboxOverlay.RefusedRenameKeepsQueue | apps/desktop/src/vdisk.ts:668-672 | a rename refused for its name leaves the list of the queue alone if and only if nothing queued has the old name; the account always |
| OutboxOverlay.RefusedRenameShows | apps/desktop/src/vdisk.ts:668-681 | a rename refused for its name, or one the account fails before or after it trashed the target or moved the file, leaves what shows alone if and only if RefusedKeepsShown, read off queue and account before it |
| OutboxOverlay.RemoveFailShows | apps/desktop/src/vdisk.ts:677-682 | a removal the account fails leaves what shows alone if and only if nothing queued has the name or the account shows there what the queue did |
| OutboxCommit.CommitShows | apps/desktop/src/vdisk.ts:419-431 | an upload's end shows nothing new if and only if CommitKeeps, whether the follow-up rename or removal succeeds, fails at once or stops half way |
| OutboxSteps.StepValid | apps/desktop/src/vdisk.ts:301-466 | every event keeps list, directory and copy in flight in agreement |
| OutboxSteps.RefusedShows | apps/desktop/src/vdisk.ts:439-443 | a copy refused for good falls back to the next older copy or the account's file and changes nothing else |
| OutboxSteps.StepExact | apps/desktop/src/vdisk.ts:251-466 | an event (write, rename, removal, carried out or not, upload start, end with any follow-up, failure, refusal, restart) changes what shows as the plain file system changes if and only if StepRight, a condition only on renames, failed removals, upload ends and restarts |
| OutboxSteps.ShowsPlainIff | apps/desktop/src/vdisk.ts:251-466 | in every run, restarts included and with no condition on it, the disk shows the plain file system after each event if and only if every event is right |
| OutboxSteps.EmptyQueueMeansAllUploaded | apps/desktop/src/vdisk.ts:375-378 | once the queue is empty after such a run the account itself holds what the plain file system does |
| OutboxRuns.StepGood | apps/desktop/src/vdisk.ts:301-466 | every guarded step keeps the invariant of a run: what is in flight is the oldest of its name, what strayed left nothing behind |
| OutboxRuns.GuardedRenameIsRight | apps/desktop/src/vdisk.ts:351-363 | under the guard of a run a rename shows as a plain rename |
| OutboxRuns.GoodCommitKeeps | apps/desktop/src/vdisk.ts:419-431 | under the invariant the end of an upload whose follow-up succeeds shows nothing |
| OutboxRuns.RunsShowAPlainFileSystem | apps/desktop/src/vdisk.ts:251-466 | after every run whose events meet conditions read off the queue, follow-ups succeeding, the disk shows exactly the plain file system |
| OutboxRuns.EmptyIsGood | apps/desktop/src/vdisk.ts:274-299 | a disk with nothing queued may begin any run and shows the account |
| OutboxRuns.SentIs | apps/desktop/src/vdisk.ts:410-427 | the upload of the next three rows is one begun and ended, two events of a run |
| OutboxRuns.UploadPastOlderShowsOlder | apps/desktop/src/vdisk.ts:394-411 | an upload begun past an older copy of its name ends with the older copy showing |
| OutboxRuns.FailedUnderYoungerComesBack | apps/desktop/src/vdisk.ts:444-451 | a copy that failed under a younger one of its name shows again once that one is uploaded |
| OutboxRuns.TrashedRetryTakesYounger | apps/desktop/src/vdisk.ts:428-429 | a removed copy uploaded late takes the younger file of its name with it |
| OutboxRuns.FailedFollowUpShowsOldName | apps/desktop/src/vdisk.ts:429 | a follow-up rename that fails: the new name goes from the disk, the one the upload was aimed at is back |
| OutboxCrash.AfterValid | apps/desktop/src/vdisk.ts:301-374 | the directory after an operation is its calls on the directory before, and agrees with the queue |
| OutboxCrash.ValidRestores | apps/desktop/src/vdisk.ts:287-294 | from a directory in agreement a restart reads each copy as queued, local-only names not at all |
| OutboxCrash.CrashKeepsQueue | apps/desktop/src/vdisk.ts:301-374 | after a crash between any two file-system calls a restart finds each copy as before the operation or as after it |
| OutboxCrash.RestartRebuilds | apps/desktop/src/vdisk.ts:280-298 | a restart reading the directory in any order finds what can be uploaded and nothing else, each copy once; in the order of the queue if and only if the copies it takes are read by number |
| OutboxCrash.RestartKeepsQueueIff | apps/desktop/src/vdisk.ts:280-298 | it is the same queue if and only if the directory is read by number, nothing is in the trash and no name is local-only |
| OutboxCrash.RemovedFileComesBack | apps/desktop/src/vdisk.ts:293 | a file removed during its upload is queued again after a crash |
| OutboxRestart.RestartShowsAt | apps/desktop/src/vdisk.ts:280-298 | what every place shows after a restart, in whatever order the directory is read |
| OutboxRestart.RestartShowsIff | apps/desktop/src/vdisk.ts:280-298 | a restart shows what was shown if and only if each queued place showed the copy read last, each local-only name what the account has, and the account itself the same elsewhere |
| OutboxRestart.OrderedRestartShowsIff | apps/desktop/src/vdisk.ts:280-298 | read by number: if and only if no removed copy that is the youngest of its place comes back with other bytes, no local-only file with other bytes than the account's goes, and the account is the same elsewhere |
| OutboxRestart.KilledShowsIff | apps/desktop/src/vdisk.ts:419-427 | killed with an upload committed and its copy not dropped: if and only if besides that copy's place is queued or had its bytes |
| OutboxProgress.AddBalanced | apps/desktop/src/vdisk.ts:301-316 | taking a copy keeps total = done + waiting |
| OutboxProgress.RemoveBalanced | apps/desktop/src/vdisk.ts:364-374 | removing copies keeps it |
| OutboxProgress.RenameBalancedIff | apps/desktop/src/vdisk.ts:351-363 | a rename keeps it if and only if no bytes cross the local-only boundary |
| OutboxProgress.EndBalancedIff | apps/desktop/src/vdisk.ts:423-427 | the end of an upload keeps it if and only if the copy has a normal name, is empty or was the last |
| OutboxProgress.CountedReports | apps/desktop/src/vdisk.ts:258-267 | the cap in the report and the floor in dropping never change a number |
| OutboxProgress.StepBalancedIff | apps/desktop/src/vdisk.ts:251-443 | an event keeps the balance if and only if StepCounts, a condition only on renames and upload ends |
| OutboxProgress.AlwaysBalancedIff | apps/desktop/src/vdisk.ts:251-443 | in every run, with no condition on it, total = done + waiting after each event if and only if every rename and every upload end meets its condition |
| OutboxProgress.RunsConserveBytes | apps/desktop/src/vdisk.ts:251-443 | so it holds after each event of every run whose renames keep to one kind of name |
| OutboxProgress.ToldApart | apps/desktop/src/vdisk.ts:258-267 | while a file uploads, reports not forced are half a second apart once any bytes were told |
| OutboxProgress.FirstBytesTold | apps/desktop/src/vdisk.ts:261-263 | the first bytes of a file are told at once |
| OutboxProgress.BackoffIsCapped | apps/desktop/src/vdisk.ts:449-450 | the wait after the n-th failure is 2 s doubled n-1 times, at most 5 min |
| OutboxQueue.RestoredCounted | apps/desktop/src/vdisk.ts:274-299 | whatever a crash left and in whatever order it is read, the restarted queue counts its bytes and has each number once; it agrees with its directory if and only if the copies it takes are in the order of their numbers |
| OutboxKeys.TakenJoinsIff | apps/desktop/src/vdisk.ts:301-316 | a copy taken joins as the newest, everything agreeing with the directory, if and only if its number is not queued and above those of the copies it does not replace |
| OutboxQueue.EntriesShowNewest | apps/desktop/src/vdisk.ts:341-345 | a folder's entries have each name once, with its newest copy, and every shown name |
| OutboxQueue.Outbox.constructor | apps/desktop/src/vdisk.ts:274-299 | the object starts as the queue restored from the directory, read in any order; it is orderly exactly when the copies are in order and the clock is not behind them |
| OutboxQueue.Outbox.Add | apps/desktop/src/vdisk.ts:301-316 | the object's new state, directory included, is that of taking the copy under the next number, also one queued already; an orderly queue stays orderly and balanced; the numbers told |
| OutboxQueue.Outbox.Drop | apps/desktop/src/vdisk.ts:332-339 | one copy leaves list, total and directory |
| OutboxQueue.Outbox.Touch | apps/desktop/src/vdisk.ts:321-330 | a new time is taken exactly for a queued copy and a time from 1970 on |
| OutboxQueue.Outbox.Entries | apps/desktop/src/vdisk.ts:341-345 | each shown name once, with its newest copy |
| OutboxQueue.Outbox.RenamePending | apps/desktop/src/vdisk.ts:351-363 | the new state is that of renaming the queued copies; the answer says whether there were any |
| OutboxQueue.Outbox.RemovePending | apps/desktop/src/vdisk.ts:364-374 | the new state is that of removing them; the balance is kept |
| OutboxQueue.Outbox.Pick | apps/desktop/src/vdisk.ts:390-395 | the copy uploaded next is the oldest whose time has come; none only if all wait |
| OutboxQueue.Outbox.Begin | apps/desktop/src/vdisk.ts:410-418 | the copy is in flight with the place it is uploaded to |
| OutboxQueue.Outbox.Report | apps/desktop/src/vdisk.ts:258-267 | a burst ends with the empty queue; the numbers shown, or nothing exactly when not forced, within half a second and some bytes told already |
| OutboxQueue.Outbox.Progress | apps/desktop/src/vdisk.ts:419-422 | a piece sent is counted and told by the same rule |
| OutboxQueue.Outbox.End | apps/desktop/src/vdisk.ts:423-427 | the copy's bytes are done and it is dropped; its last place and fate are returned, and the numbers told |
| OutboxQueue.Outbox.Failed | apps/desktop/src/vdisk.ts:444-464 | only the failed copy waits its own time |
| OutboxListing.ListingIsView | apps/desktop/src/vdisk.ts:623-632 | the merged listing has every name shown, each once, and every row opens the bytes shown |
| FragCache.TrimKeepsRecent | apps/desktop/src/vdisk.ts:198-214 | after a trim the rest fits or is all kept, nothing kept was evicted, nothing left that could go is older than an evicted one |
| FragCache.TrimIsMinimal | apps/desktop/src/vdisk.ts:198-214 | one eviction fewer would have left it over the limit; within the limit nothing changes |
| FragCache.TrimmedMembers | apps/desktop/src/vdisk.ts:198-214 | a trim splits the records into those left and those gone, and their bytes add up |
| FragCache.TrimStaysIff | apps/desktop/src/vdisk.ts:198-214 | a record stays if and only if it is kept or what is left fits once all older ones that may go are gone |
| FragCache.LeftoverIsNotKept | apps/desktop/src/vdisk.ts:140-150 | fragments of an earlier run are trimmed to the limit at start |
| FragDisk.OpenFragmentStaysIff | apps/desktop/src/vdisk.ts:197-214 | at any point of a process a trim leaves a fragment of an open version if and only if this process stored it or what is left fits once all older ones that may go are gone |
| FragDisk.LeftoverGoes | apps/desktop/src/vdisk.ts:186-214 | a fragment left by an earlier run goes, its version open or not, when a new one does not fit beside it |
| FragDisk.FragDiskCache.constructor | apps/desktop/src/vdisk.ts:134-152 | what an earlier run left, short files included, is counted and trimmed; used is the sum of the sizes |
| FragDisk.FragDiskCache.Get | apps/desktop/src/vdisk.ts:159-172 | the recorded file's bytes as they are, or nothing; a file gone is forgotten |
| FragDisk.FragDiskCache.Set | apps/desktop/src/vdisk.ts:176-191 | a new fragment written is recorded and trimmed for; known and too large ones change nothing; a write that fails records nothing and leaves what it wrote |
| FragDisk.FragDiskCache.Trim | apps/desktop/src/vdisk.ts:198-214 | records, owners and files after a trim |
| FragDisk.FragDiskCache.Clear | apps/desktop/src/vdisk.ts:215-221 | nothing is left |
| FragDisk.TruthfulIff | apps/desktop/src/vdisk.ts:134-191 | a process always answers with nothing or the key's true bytes if and only if every file it recorded is whole |
| FragDisk.AlwaysTruthfulIff | apps/desktop/src/vdisk.ts:134-191 | over any history of processes on one directory, each ending anywhere: all answers are true if and only if no process keeps a short file of those it finds |
| FragDisk.KeepsAllThatFit | apps/desktop/src/vdisk.ts:141-152 | within the limit that is: if and only if every file found is whole |
| FragDisk.NothingCutShortIsTruthful | apps/desktop/src/vdisk.ts:134-191 | with no write cut short every process answers truthfully |
| FragDisk.CutShortIsRead | apps/desktop/src/vdisk.ts:176-184 | a write cut short, a new process, a lookup: part of the fragment is the answer |
| FragFront.MemoryIsExactLru | apps/desktop/src/vdisk.ts:107-126 | the memory holds exactly the last four different fragments held; a fragment if and only if fewer than four others were held since |
| FragFront.MemFront.Get | apps/desktop/src/vdisk.ts:112-118 | the fragment from memory, else from the disk cache and then held |
| FragFront.MemFront.Set | apps/desktop/src/vdisk.ts:122-126 | held in memory as the newest of at most four |
| Framing.CutsDoNotMatter | apps/desktop/src/vdisk.ts:690-700 | what is handed on and kept depends on the bytes only, not on the chunks |
| Framing.DrainEncoded | apps/desktop/src/vdisk.ts:692-699 | the requests before the first that is not JSON come out as sent; it and everything behind it stay |
| Framing.FramesSurviveCutting | apps/desktop/src/vdisk.ts:690-700 | for every list of payloads, every cut and every unfinished tail: exactly the payloads before the first that is not JSON, every other byte kept; all of them if and only if all are JSON |
| Framing.Connection.OnData | apps/desktop/src/vdisk.ts:690-700 | one chunk appends the frames now whole and keeps the rest; it throws exactly when a whole frame is left in front |
| Framing.Receive | apps/desktop/src/vdisk.ts:690-700 | the object after a list of chunks |
| Lru.KeysAreMostRecent | apps/web-mo/src/app-core.ts:2802-2820 | after any trace the keys are the most recent distinct touched ones, in order, cut to the capacity |
| Lru.ExactLru | apps/web-mo/src/app-core.ts:2802-2820 | a key is held if and only if fewer than the capacity of other keys were touched since |
| Lru.SameTouchesHoldMore | apps/web-mo/src/app-core.ts:2802-2820 | a larger map holds at least the same keys for the same touches |
| Lru.LargerHoldsMore | apps/web-mo/src/app-core.ts:2802-2820 | given the same calls a larger map holds at least the same keys, although its lookups hit more often and touch more |
| Lru.FindsLastStored | apps/web-mo/src/app-core.ts:2806-2819 | a lookup finds nothing or the value stored last |
| Lru.LruMap.Get | apps/web-mo/src/app-core.ts:2806-2813 | a found entry becomes the newest |
| Lru.LruMap.Set | apps/web-mo/src/app-core.ts:2814-2819 | the entry becomes the newest, the oldest go beyond the capacity |
| DiskDownload.ChunkCovers | apps/web-mo/src/app-core.ts:1395-1403 | next fragments of the first one's length, capped by the size, is where the next fragment begins, the last short one included |
| DiskDownload.HonestVouches | apps/web-mo/src/app-core.ts:1418-1428 | a journal pairs its count with the hash state of exactly min(size, next times chunk) bytes |
| DiskDownload.Download.Open | apps/web-mo/src/app-core.ts:1388-1403 | the partial file is cut back to what the journal vouches for, or emptied |
| DiskDownload.Download.PutFirst | apps/web-mo/src/app-core.ts:1406 | also a journal that could not be resumed from is put back, and stays honest |
| DiskDownload.Download.Write | apps/web-mo/src/app-core.ts:1410-1413 | the next fragment is appended |
| DiskDownload.Download.OnWritten | apps/web-mo/src/app-core.ts:1418-1428 | the journal pairs the count with the hash state of exactly those bytes |
| DiskDownload.Download.Finish | apps/web-mo/src/app-core.ts:1437-1438 | what is published is the whole version |
| DiskDownload.AnyHistory | apps/web-mo/src/app-core.ts:1382-1447 | over any history of steps, late saves, failures and crashes: a prefix on disk, honest journals, nothing published but the whole |
| DiskDownload.DownloadToDisk | apps/web-mo/src/app-core.ts:1382-1447 | an undisturbed run publishes the whole version and fetches only what the journal does not vouch for |
| CreditStream.StepKeeps | apps/web-mo/src/sw.ts:48-72 | every step of worker, channel and stream keeps the invariant |
| CreditStream.InvIsSafe | apps/web-mo/src/app-core.ts:1661-1702 | the invariant means: pulls = sent + credits + on their way, one outstanding at most, delivered a prefix, complete when done |
| CreditStream.EveryRunIsSafe | apps/web-mo/src/app-core.ts:1657-1714 | every interleaving is safe |
| Keyset.CompareFlipsIff | apps/web-mo/src/app-core.ts:999-1001 | the comparison is antisymmetric if and only if no missing number meets a zero |
| Keyset.OrderIsTotal | apps/web-mo/src/app-core.ts:999-1001 | among keys of one sort it is a strict total order, in both directions |
| Keyset.OrderIsTransitive | apps/web-mo/src/app-core.ts:999-1001 | and transitive |
| Keyset.MixedKeysDoNotOrder | apps/web-mo/src/app-core.ts:999 | two keys that each come after the other |
| Keyset.List | apps/web-mo/src/app-core.ts:991-1006 | the page and the count |
| Keyset.PageSpec | apps/web-mo/src/app-core.ts:1002-1005 | a page is the next keys after the cursor, in order, none left out; a short one leaves nothing out |
| Keyset.StayingIsListed | apps/web-mo/src/app-core.ts:1003-1006 | a node there all along with the same key is listed or still ahead of the cursor |
| Keyset.WalkIsExact | apps/web-mo/src/app-core.ts:991-1006 | a finished walk through a changing folder lists it exactly once, and all rows in order |
| Keyset.ListedWasThere | apps/web-mo/src/app-core.ts:991-1006 | every row was in the folder when its page was asked for |
| FolderFiles.FolderFiles.OfRows | apps/web-mo/src/preview.ts:263-266 | given rows: their files, nothing to load |
| FolderFiles.FolderFiles.More | apps/web-mo/src/preview.ts:270-282 | one page more; the keys that may still come get fewer |
| FolderFiles.FolderFiles.At | apps/web-mo/src/preview.ts:291-294 | the i-th file, or nothing only past the end of the folder |
| FolderFiles.FolderFiles.IndexOf | apps/web-mo/src/preview.ts:283-290 | the first position of a file, or -1 only when the whole folder was read without it |
| FolderFiles.CompleteFolderHasFile | apps/web-mo/src/preview.ts:274-282 | a folder read to its end holds every file that stayed, once, in order, and nothing that never was there |
| PrettyJson.ScanIsPretty | apps/web-mo/src/preview.ts:118-153 | for every value and every whitespace between its tokens the output is its one indented form, and the depth never falls below 0 |
| PrettyJson.SameValueSameOutput | apps/web-mo/src/preview.ts:118-153 | texts of the same value print the same |
| PrettyJson.PrettySameValue | apps/web-mo/src/preview.ts:113-117 | the output is JSON of the same value, every string and number unchanged |
| PrettyJson.PrettyOfBare | apps/web-mo/src/preview.ts:118-153 | the indented form does not depend on the whitespace read |
| PrettyJson.PrintingTwiceIsOnce | apps/web-mo/src/preview.ts:118-153 | printing the output again gives the output |
| PrettyJson.TakeOne | apps/web-mo/src/preview.ts:129-151 | one pass of the loop |
| PrettyJson.ScanLoop | apps/web-mo/src/preview.ts:124-152 | the loop puts out what the scan does |
| PrettyJson.PrettyJson | apps/web-mo/src/preview.ts:118-153 | null exactly for what does not parse, else the indented form |
| Delimited.ParseDelimited | apps/web-mo/src/preview.ts:159-210 | the scanner that jumps to the next quote gives the first max(1, m) rows of the automaton that reads character by character; nothing is missing unless more |
| Delimited.PassKeeps | apps/web-mo/src/preview.ts:166-204 | each branch of the loop against the automaton |
| Delimited.CopyQuoted | apps/web-mo/src/preview.ts:179-184 | the jump copies what the automaton would |
| Delimited.RestWithoutRows | apps/web-mo/src/preview.ts:199-208 | text left has no row if and only if it is one empty quoted field |
| Delimited.ReadPrinted | apps/web-mo/src/preview.ts:155-210 | reading undoes printing, quoted or bare fields, with LF, CR LF or CR |
| CommandLine.EscapedIsBody | apps/ddn-server/src/autostart.ts:60 | the two replacements double exactly the backslashes before a quote or the end |
| CommandLine.ReadArgument | apps/ddn-server/src/autostart.ts:58-61 | one quoted argument is read back |
| CommandLine.SplitJoined | apps/ddn-server/src/autostart.ts:72 | splitting the joined line by the rules of CommandLineToArgvW gives exactly the arguments |
| TaskXml.ReplacesAreOneMap | apps/ddn-server/src/autostart.ts:56 | the five replaces in a row are one map per character |
| TaskXml.ReadBack | apps/ddn-server/src/autostart.ts:56-128 | a value escaped and written with CR LF is read back with its CRs as LFs; itself if and only if it has none |
| TaskXml.EscapedIsText | apps/ddn-server/src/autostart.ts:119 | an escaped value never ends its element early |
| TaskXml.TaskGetsItsArguments | apps/ddn-server/src/autostart.ts:68-119 | the started program gets exactly the arguments if and only if none holds a CR |
| Crc32.ByteByTable | apps/desktop/src/vdisk-thumbs.ts:40 | one table look-up is eight steps of the bit-by-bit register |
| Crc32.Crc.constructor | apps/desktop/src/vdisk-thumbs.ts:32-37 | the table holds eight shifts of each byte |
| Crc32.Crc.Of | apps/desktop/src/vdisk-thumbs.ts:38-42 | the checksum by table is the checksum bit by bit |
| PngText.Writer.WriteUInt32BE | apps/desktop/src/vdisk-thumbs.ts:46-50 | four bytes, the highest first |
| PngText.Writer.WriteChunk | apps/desktop/src/vdisk-thumbs.ts:45-52 | length, type, data and checksum, or the error of a length over four bytes |
| PngText.Writer.WithText | apps/desktop/src/vdisk-thumbs.ts:55-60 | the errors, else the chunks inserted at the end of the first chunk |
| PngText.ParseWritten | apps/desktop/src/vdisk-thumbs.ts:45-52 | a chunk written is a chunk read, checksum valid |
| PngText.AnnotatedParses | apps/desktop/src/vdisk-thumbs.ts:54-60 | signature, the same first chunk, the text chunks in order, then every other byte unchanged |
| PngText.TextReadBack | apps/desktop/src/vdisk-thumbs.ts:58 | an entry reads back if and only if it is Latin-1 and its keyword has no zero |
| GalleryDays.GalleryDayGroups | apps/web-mo/src/gallery-days.ts:20-43 | the pass gives one heading per run of the grouping that extends a run as long as it stays valid |
| GalleryDays.CountDays | apps/web-mo/src/gallery-days.ts:23-24 | photos per day |
| GalleryDays.JoinTest | apps/web-mo/src/gallery-days.ts:32-33 | the test by first photo and last day is validity of the longer run |
| GalleryDays.GreedyRuns | apps/web-mo/src/gallery-days.ts:27-41 | every dated photo is in exactly one valid run, in order |
| GalleryDays.FewestHeadings | apps/web-mo/src/gallery-days.ts:1-3 | no other grouping into valid runs has fewer headings |
| GalleryDays.EarliestAndLatest | apps/web-mo/src/gallery-days.ts:34-35 | from and to are the minimum and maximum |
| GalleryDays.DaysCounted | apps/web-mo/src/gallery-days.ts:36 | days is the number of different days if and only if no day comes back |
| GalleryDays.SortedDaysCounted | apps/web-mo/src/gallery-days.ts:36 | all time-sorted photos are counted right if and only if the calendar never comes back to a day it left |
| Speed.SpeedMeter.constructor | apps/web-mo/src/speed.ts:13-20 | starts with one sample of nothing done |
| Speed.SpeedMeter.Add | apps/web-mo/src/speed.ts:22-27 | the kept samples are a suffix of the history and give the rate of the whole history with interpolation at the window's edge |
| Speed.SpeedMeter.RateIsExactIff | apps/web-mo/src/speed.ts:34-47 | at any time the rate is that of the whole history if and only if the window begins before the second kept sample, or the line through the two oldest kept happens to give the same bytes at the window's edge, or both leave 0 |
| Speed.SpeedMeter.EdgeInFirst | apps/web-mo/src/speed.ts:37-45 | the interpolation point is in the first kept segment and in no other |
| Speed.LateRateDiffers | apps/web-mo/src/speed.ts:41-45 | a state where it differs: 800 for 400 bytes a second |
| Markdown.CloseFrom | apps/web-mo/src/markdown.ts:218-227 | the end found is a closing bracket after the opening one |
| Markdown.CloseBracket | apps/web-mo/src/markdown.ts:218-227 | the loop |
| Markdown.LinkTail | apps/web-mo/src/markdown.ts:230-269 | the position after a tail is further on and within the text |
| Markdown.CloserFrom | apps/web-mo/src/markdown.ts:272-301 | a closer found is that delimiter, after the opener |
| Markdown.FindCloser | apps/web-mo/src/markdown.ts:272-301 | the loop |
| Markdown.CodeEndsExactly | apps/web-mo/src/markdown.ts:337-357 | the closing run of a code span is exactly as long as the opening one |
| Markdown.StepAt | apps/web-mo/src/markdown.ts:312-445 | every pass goes forward and puts out only inline elements of the closed language |
| Markdown.Inline | apps/web-mo/src/markdown.ts:303-448 | terminates on every text with the recursion bounded by the depth; all output is in the closed language |
| Markdown.ParseInline | apps/web-mo/src/markdown.ts:303-448 | the loop |
| Markdown.EscapedIsLiteral | apps/web-mo/src/markdown.ts:314-327 | text with every punctuation character escaped is shown literally |
| MarkdownBlocks.Block | apps/web-mo/src/markdown.ts:101-207 | every block takes at least one line and is of the closed language |
| MarkdownBlocks.Blocks | apps/web-mo/src/markdown.ts:94-210 | terminates on every list of lines, with quotes and lists nested to the depth bound |
| MarkdownBlocks.ParseBlocks | apps/web-mo/src/markdown.ts:94-210 | the loop |
| MarkdownBlocks.InlineHeight | apps/web-mo/src/markdown.ts:303-305 | text nests no higher than the depth left plus two |
| MarkdownBlocks.BlockHeight | apps/web-mo/src/markdown.ts:124-163 | a block's tree is no higher than twice the depth left plus five |
| MarkdownBlocks.BlockLinksSafe | apps/web-mo/src/markdown.ts:42-52 | every target anywhere in the tree is a URL of an allowed scheme, on an `a` element |
| MarkdownBlocks.ParsedIsSafe | apps/web-mo/src/markdown.ts:450-455 | all of that for every source text |

## Left out

Queue and disk:
- OutboxCommit.CommitShows: the account's commit, the drop of the copy and the follow-up rename or removal are one step, whatever the follow-up's outcome; a request in between is not modelled, nor an account operation that is done but reported as failed.
- OutboxSteps.ShowsPlainIff: a restart in a run finds every operation's file-system calls made; for one cut short OutboxCrash.CrashKeepsQueue says copy by copy what a restart finds.
- Folders on the disk (mkdir, folder rename and removal) and the Windows requests by path (`w-upload`, `w-rename`, `w-unqueue`, `w-trash`): the model has files only.
- Waiting: the settle time, the timers of the loop and its wake-ups; safety is proved, not that an upload ever happens.
- OutboxOverlay.RenameShows: the account normalises the names it stores (`apps/web-mo/src/app-core.ts:1944-1957`, `1993-2006`) while the queue keeps them as given; here the account stores them as given too, so the results about what shows are for names already normalised.
- OutboxSteps.StepExact: a copy's number in a run is above all queued ones, as it is while the clock is not set back; OutboxKeys.TakenJoinsIff says what else can happen to one copy.
- OutboxCrash.CrashKeepsQueue: each call (rename, small JSON write, removal) is one atomic step, so a half-written JSON file is not modelled.
- OutboxRuns.RunsShowAPlainFileSystem: refusals (EINVAL, EISDIR, ENOENT) are events that fall back to the older file.
- What sync-core and the metadata client do with versions, conflicts and encryption; `vdiskUpload`, `vdiskRename` and `vdiskRemove` are map operations.
- FragDisk.FragDiskCache.Get: file names are hashes of the keys, taken to be injective.
- Framing.Connection.OnData: what JSON.parse takes is a parameter; that the exception may end the whole process is not modelled.
- Answers of `stat`, `read`, `statfs`, previews and thumbnails.

Application core and preview:
- DiskDownload.AnyHistory: the download itself is "write fragment i, then report i + 1 with the hash state"; the hash state is the bytes taken in; verification of the whole-file hash is not part of this model.
- CreditStream.EveryRunIsSafe: the browser's stream is the standard's default controller with a high-water mark of 1; the start timer and cancelling end the worker at any time.
- Keyset.List: the SQL store's own query and the gallery's order are not part of this model.
- FolderFiles.FolderFiles.IndexOf: requests of concurrent callers that share one page are one request; the keys that ever occur in the folder are finitely many, else the walk need not end.
- PrettyJson.PrettyJson: the answer of `JSON.parse` is a parameter; literals are any run of other characters, so the proof covers more texts than JSON has.
- Speed: `etaMs`, `average` and `fmtDuration` are single formulas; times are whole milliseconds.
- GalleryDays: the local calendar is a parameter (a day has one month); JavaScript's NaN dates are not modelled.

Desktop and server:
- TaskXml.ReadBack: the UTF-16 bytes of the file and characters XML 1.0 does not allow are not modelled.
- CommandLine.SplitJoined: the first word of a command line (the program) follows other rules and is not part of the argument line.
- PngText.Writer.WithText: the entries come as a list in the object's order.
- Service and agent installation on Linux and macOS, Discord, HTTP, Electron, IndexedDB, the user interface.

Markdown:
- Markdown.Inline: the line patterns, the URL parser, the test for letters and the patterns of automatic links are parameters; characters are Unicode characters, not UTF-16 code units, in the look-ahead windows.
- MarkdownBlocks.ParseBlocks: the scans within one block (quoted lines, list items, table rows, cells) and the tail of a link are recursive functions, not loops.
- What is a paragraph, heading or list for a given text beyond the code's own branches: no Markdown standard is the reference.
