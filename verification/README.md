# Verified models of the lium-io node software

A Dafny model of the stateful protocols of the repository, with proofs about every run of them: failures, lost
answers, crashes and environment moves are arguments of the model, and the results hold for all of them.
`dafny verify dfyconfig.toml` verifies the project.

| modules | what they model |
|---|---|
| `Common` | definitions the others share |
| `Ledger`, `ChainReader` | the block tree behind a load-balanced RPC, and reading the finalized chain through it |
| `SendProtocol` | sending, settling and replacing collateral transactions by any number of processes |
| `Bloom`, `ReclaimList` | the logs bloom, and the list of open reclaim requests |
| `RunnerNames`, `Watchtower`, `RuntimeProbe` | switching the executor runner, repairing an interrupted switch, the GPU probe |
| `ByteText`, `KeyLines`, `MarkerRuns`, `AuthorizedKeys`, `KeyRuns` | the authorized_keys file as bytes |
| `PrePull` | evicting pre-pulled images |
| `PendingLogs`, `Reporter` | the storage event reporter |
| `LoginSpool` | the sshd login spool |
| `StaleTask` | killing the process tree of a stale containerd task |

## Assumptions

They are stated as data or as `requires` clauses, never as axioms.

- A block hash fixes the block's header, transactions and receipts (`ChainReader.Honest`, `HonestReceipt`,
  `ReclaimList.HonestReceipts`). Backends may lag, be on any fork or not answer. Each finalized block answered
  is, or was before, the finalized one. A transaction hash is identified with the signed transaction.
- A transaction enters a block only at its sender's next nonce (`Ledger.NoncesInOrder`); that a nonce is mined
  at most once on a chain is proved from it.
- Replacing the record file is atomic and durable, the file lock excludes other processes and goes with its
  holder, and only this client writes the record. `SendProtocol` interleaves the processes statement by statement.
- A digest, a storage-key derivation and a signature are not modelled; the digest is a function argument.
- A Docker call works, raises before or after its effect, or the process dies before or after it. A file
  append or replace happens whole or not at all.

## What the code does that its documentation does not say

- `purge_expired_uploaded_keys` documents that a marked line whose time cannot be read is dropped. An integer
  too large for a float raises `OverflowError`, which is not a `ValueError`: the purge then fails and removes
  nothing, at any time. `KeyRuns.OverflowingLine` gives such lines, `MarkerRuns.PurgeKeepsLiveIff` says that a
  purge works exactly when there is none, and `KeyRuns.KeysExpire` that uploads never write one.
- An upload of an empty key without a source pin writes a line the marker does not take on
  (`KeyLines.UploadIsMarkedIff`), and a key that brings its own `from="…" ` option is read back without it
  unless a pin was put in front (`KeyLines.UploadRoundTrip`, both directions).
- `find_runner_container` returns a container named `executor-runner` before it looks at leftovers, so a
  leftover beside a CVM runner is not cleared. `Watchtower.Docker.FindRunner` states it for every host: when no
  call fails, leftovers beside a single live runner are cleared if and only if that name is unused and the
  runner runs or can be started. A restored runner is renamed, not started, and none of the results says that
  it runs.

## Model

| member | source | states |
|---|---|---|
| `Ledger.AncestryIsStable` | neurons/miners/src/core/collateral.py:643-685 | whether a block at or below a finalized block is on its chain never changes as finality advances |
| `Ledger.MinedOncePerNonce` | neurons/miners/src/core/collateral.py:734-737 | on any chain two mined transactions of one key at one nonce are the same transaction |
| `Ledger.UsedNonceIsClosed` | neurons/miners/src/core/collateral.py:560-572 | above a block whose state has used a nonce, nothing at that nonce can be newly mined |
| `ChainReader.ChainDownTo` | neurons/miners/src/core/collateral.py:687-705 | for every batch size the batched read equals the walk one block at a time, and it fails only when the gateway refuses a batch |
| `ChainReader.WalkSound` | neurons/miners/src/core/collateral.py:687-705 | whichever backend answered, a returned chain is a contiguous range of ancestors of the finalized block, down to the lowest asked or just above an unanswered block |
| `ChainReader.WalkComplete` | neurons/miners/src/core/collateral.py:687-705 | when the reads reach the finalized chain down to some block, and no further, exactly that range is returned |
| `ChainReader.WalksAgree` | neurons/miners/src/core/collateral.py:687-705 | two returned chains agree at every height both hold, even from two finalized blocks |
| `ChainReader.FinalizedOnChain` | neurons/miners/src/core/collateral.py:643-685 | a verdict is true of the finalized chain and of every later one; an untrusted answer is never a verdict; a served poll gives one; the wait ends |
| `SendProtocol.StepKeeps` | neurons/miners/src/core/collateral.py:467-558 | every statement of every process, every crash and every move of finality keeps the protocol invariant |
| `SendProtocol.RunKeeps` | neurons/miners/src/core/collateral.py:467-816 | so does every run of any number of interleaved processes and keys |
| `SendProtocol.LockedStepKeeps` | neurons/miners/src/core/collateral.py:864-888 | no process but the holder is past the lock, so a step of the holder that keeps its own view true keeps the whole invariant |
| `SendProtocol.EverySendIsRecordedOrClosed` | neurons/miners/src/core/collateral.py:498-510 | each transaction ever broadcast is in its key's record or at a nonce a finalized transaction used |
| `SendProtocol.NoRecordNothingPending` | neurons/miners/src/core/collateral.py:548-558 | with no record, whatever was broadcast is final already or is on no block above the finalized one |
| `SendProtocol.OneOpenNonce` | neurons/miners/src/core/collateral.py:52-55 | transactions of a key that can still be mined share one nonce and make one call |
| `SendProtocol.RecordMinedOnce` | neurons/miners/src/core/collateral.py:767-816 | of a record's transactions at most one is mined on any chain, and all make the first one's call |
| `SendProtocol.OnlyClearDropsRecords` | neurons/miners/src/core/collateral.py:902-926 | a step loses no recorded transaction: a record goes only on a final receipt of one of its own |
| `SendProtocol.ReclaimIsLoggedBeforeClear` | neurons/miners/src/core/collateral.py:541-595 | on every path, the record of a successful reclaim is dropped only after a log line with a request ID of its receipt |
| `SendProtocol.ReplacementIsGood` | neurons/miners/src/core/collateral.py:786-804 | a replacement keeps nonce and call, outbids by at least 9/8, and stays under the ceiling |
| `SendProtocol.PricesGrow` | neurons/miners/src/core/collateral.py:786-792 | the k-th price times 8^k is at least the first price times 9^k |
| `SendProtocol.ReplacementsAreBounded` | neurons/miners/src/core/collateral.py:786-792 | under a fixed ceiling a send with a positive price has finitely many replacements |
| `SendProtocol.BumpedPrice` | neurons/miners/src/core/collateral.py:786-787 | the price is the quote, or else the least integer that is at least 9/8 of the last price |
| `SendProtocol.AnyReplacementIsOwnCall` | neurons/miners/src/core/collateral.py:818-859 | whatever the record holds, a replacement signed from it repeats a call this key signed, to a collateral contract on this chain with no value |
| `SendProtocol.OwnRecordsVerify` | neurons/miners/src/core/collateral.py:818-859 | every record this client wrote passes those checks |
| `SendProtocol.FinalSendCanBeSettled` | neurons/miners/src/core/collateral.py:548-578 | a recorded transaction that is final can always be settled: a run ends with the outcome logged, its record gone and every other key's record as it was |
| `SendProtocol.ReadVerdict` | neurons/miners/src/core/collateral.py:626-632 | the verdicts of `FinalizedOnChain` are exactly what enables the steps that take or pass over a receipt |
| `Bloom.LogsBloom` | neurons/miners/src/core/collateral.py:299-306 | a bit of the result is set exactly when a value of some log sets it |
| `Bloom.NoFalseNegatives` | neurons/miners/src/core/collateral.py:280-296 | the bloom of a list of logs passes each log's address together with any of its topics |
| `Bloom.MayHoldIff` | neurons/miners/src/core/collateral.py:280-296 | the test passes just when every bit of every value is set by some log |
| `Bloom.BloomIsUnique` | neurons/miners/src/core/collateral.py:299-306 | the bits fix the bytes, so comparing bytes compares blooms |
| `Bloom.BloomOfBoth` | neurons/miners/src/core/collateral.py:299-306 | the bloom of two lists together is the bitwise or of their blooms |
| `ReclaimList.ReclaimAtBlockHash` | neurons/miners/src/core/collateral.py:1036-1076 | an answer is the state of the pinned block, and one comes exactly when all four reads reach it |
| `ReclaimList.ReclaimEventsAt` | neurons/miners/src/core/collateral.py:1078-1171 | a returned list is exactly the open requests of its window at the finalized block, in block and log order; and when every read down to the lookback, or to where pruning begins, is served, the list of that window is returned |
| `ReclaimList.GetReclaimEvents` | neurons/miners/src/core/collateral.py:1019-1034 | a list is exact at the finalized block of its attempt, comes at the latest with the first attempt served in full, and is given up only after three |
| `ReclaimList.OneBlockIsServed` | neurons/miners/src/core/collateral.py:1078-1171 | a gateway that is honest and serves every read exists, whatever a block logged, so the promise that a list is returned is about real gateways |
| `ReclaimList.ReadWindow` | neurons/miners/src/core/collateral.py:1086-1094 | the window is a range of the finalized chain that reaches the lookback or at least the kept blocks |
| `ReclaimList.ReadWindowLogs` | neurons/miners/src/core/collateral.py:1086-1129 | the logs read are those of every block of the window in chain order, and they come whenever blocks and receipts are served |
| `ReclaimList.ReceiptRequests` | neurons/miners/src/core/collateral.py:1099-1104 | a receipt is asked for of every transaction of every candidate; a candidate without its list refuses |
| `ReclaimList.ReadLogs` | neurons/miners/src/core/collateral.py:1099-1118 | batched receipts grouped by block hash are the logs of each block in order; a wrong or missing receipt ends the read |
| `ReclaimList.CheckedLogs` | neurons/miners/src/core/collateral.py:1119-1129 | the kept logs are the started logs of all candidates, and only a missing bloom refuses an honest answer |
| `ReclaimList.CandidatesSuffice` | neurons/miners/src/core/collateral.py:1095-1105 | blocks the bloom rules out hold none of the started logs of the range |
| `ReclaimList.SortedDownIsChainOrder` | neurons/miners/src/core/collateral.py:1143-1145 | sorting what the downward walk found gives block and log order |
| `ReclaimList.ReadOpen` | neurons/miners/src/core/collateral.py:1144-1171 | the result is the requests with a non-zero amount at the finalized block; it is refused only when an open one differs from its log |
| `RunnerNames.PreviousNameRoundTrip` | watchtower/src/watchtower.py:65-76 | any non-empty runner name is read back from its `-previous-` name |
| `RunnerNames.IsPreviousNameIff` | watchtower/src/watchtower.py:74-76 | exactly names of that form are taken for leftovers |
| `Watchtower.Docker.Recreate` | watchtower/src/watchtower.py:405-440 | wherever it fails or dies: the state is one the lookup repairs, no other container changes, the old runner is gone only if the new one was started, the two never both run; without failures it switches, or puts the old one back when the new one cannot start |
| `Watchtower.Docker.SwitchTo` | watchtower/src/watchtower.py:405-440 | the possible states after an interruption at each step |
| `Watchtower.Docker.RollBack` | watchtower/src/watchtower.py:430-435 | a failed switch removes the new container, puts the name back and starts the old one, or stops in a repairable state |
| `Watchtower.Docker.FindRunner` | watchtower/src/watchtower.py:117-169 | repairable states stay repairable under any failure; without failures: beside any single live runner all leftovers, labelled or CVM, go if it runs or can be started and nothing changes if not, a lone leftover is renamed back, one runner is left after one interrupted switch or both when the new one cannot start; an ambiguous host raises and is not touched; None only when nothing carries the label |
| `Watchtower.Docker.ClearPrevious` | watchtower/src/watchtower.py:172-205 | a leftover is removed only once the runner was started or seen running, and is kept when it cannot start |
| `Watchtower.Docker.Restore` | watchtower/src/watchtower.py:208-225 | a lone leftover gets its name back, or keeps its leftover name, and is returned either way |
| `Watchtower.Docker.FindByName` | watchtower/src/watchtower.py:331-355 | an error reads as not found; without one the container is found exactly when the name is used |
| `Watchtower.Docker.SwitchThenLookUp` | watchtower/src/watchtower.py:117-225 | from one labelled runner: a switch interrupted anywhere, any number of interrupted lookups, then one clean lookup leave one runner under the original name or both |
| `Watchtower.Docker.Cycles` | watchtower/src/watchtower.py:597-661 | from any first state and in every interleaving of failing switches, lookups and first boots: a host with a runner, labelled or CVM, never has none, and a runner goes only while one that was started or seen running stays; the same of the labelled ones alone |
| `Watchtower.Docker.FirstBoot` | watchtower/src/watchtower.py:486-508 | nothing on the host changes but that a runner may be added, and only under a free name |
| `RuntimeProbe.ProbeHost.Probe` | watchtower/src/watchtower.py:539-594 | whatever fails, it leaves at most one probe container or none that was not there; without failures none |
| `RuntimeProbe.ProbeHost.RemoveStale` | watchtower/src/watchtower.py:539-551 | it reports success only when no probe container is left |
| `RuntimeProbe.ProbeHost.ProbeEachCycle` | watchtower/src/watchtower.py:539-594 | starting from none, probe containers never exceed one |
| `ByteText.LinesOfJoin` | neurons/executor/src/services/ssh_service.py:83-103 | lines written out are read back as the same lines |
| `ByteText.ParseOfDecimal` | neurons/executor/src/services/ssh_service.py:168-175 | a printed time is read back |
| `ByteText.ParseOfSigned` | neurons/executor/src/services/ssh_service.py:168-175 | a sign in front of it is read with it |
| `KeyLines.MarkedIff` | neurons/executor/src/services/ssh_service.py:43-54 | a line is marked with a value just when the last of its at least two tokens is the marker and that value |
| `KeyLines.UploadIsMarkedIff` | neurons/executor/src/services/ssh_service.py:208-213 | an upload is a marked line unless the key is empty and there is no pin |
| `KeyLines.UploadRoundTrip` | neurons/executor/src/services/ssh_service.py:43-71 | the key and the time are read back from the line, with the exact condition for the key |
| `KeyLines.StampMarks` | neurons/executor/src/services/ssh_service.py:143-149 | a stamped line carries the stripped key and the stamp's time, and would be left alone by another stamp |
| `MarkerRuns.AppendedLines` | neurons/executor/src/services/ssh_service.py:214-221 | an append never merges two keys: old lines stay, the last completed, and one line follows |
| `MarkerRuns.PurgeKeepsLiveIff` | neurons/executor/src/services/ssh_service.py:157-181 | a purge keeps exactly the unmarked and the live lines, unless a marker no float can hold makes it keep all |
| `MarkerRuns.MarkedLivesTwiceTtl` | neurons/executor/src/services/ssh_service.py:160-163 | a marked line in the file after two purges of a run has them within twice the time to live of each other |
| `MarkerRuns.RunExpires` | neurons/executor/src/services/ssh_service.py:157-181 | after any run that ends in a purge, every marked line is within the time to live of it |
| `MarkerRuns.RunKeepsUnmarked` | neurons/executor/src/services/ssh_service.py:157-221 | over any run, unmarked lines keep their bytes and order |
| `AuthorizedKeys.KeyFile.Upload` | neurons/executor/src/services/ssh_service.py:208-221 | the file's lines afterwards; a key of more than one line is refused and nothing written |
| `AuthorizedKeys.KeyFile.Rewrite` | neurons/executor/src/services/ssh_service.py:95-104 | the lines kept, the count dropped, and that a line that cannot be judged leaves the file |
| `AuthorizedKeys.KeyFile.Purge` | neurons/executor/src/services/ssh_service.py:157-181 | one purge step on the lines; it raises exactly when a marker overflows, and a missing file is no error |
| `AuthorizedKeys.KeyFile.Remove` | neurons/executor/src/services/ssh_service.py:223-230 | exactly the lines of that key go; a missing file raises |
| `AuthorizedKeys.KeyFile.Stamp` | neurons/executor/src/services/ssh_service.py:116-154 | once per done-file every key line without a marker is stamped; a death before the done-file leaves it to run again |
| `AuthorizedKeys.StampLines` | neurons/executor/src/services/ssh_service.py:141-149 | one pass stamps exactly the lines not left alone and counts them; a count of zero changes nothing |
| `KeyRuns.KeysExpire` | neurons/executor/src/services/ssh_service.py:157-221 | `RunExpires` for uploads and purges of the real line format |
| `KeyRuns.UnmarkedKeysStay` | neurons/executor/src/services/ssh_service.py:157-221 | `RunKeepsUnmarked` for uploads and purges of the real line format |
| `KeyRuns.OverflowingLine` | neurons/executor/src/services/ssh_service.py:168-175 | lines that make every purge fail, whatever the time |
| `KeyRuns.LimitOverflows` | neurons/executor/src/services/ssh_service.py:168-175 | such a marker exists: the float limit itself is short enough to be read as an integer |
| `KeyRuns.UploadsFit` | neurons/executor/src/services/ssh_service.py:213 | no upload writes a marker that overflows |
| `KeyRuns.FloatTimesAreClocks` | neurons/executor/src/services/ssh_service.py:129-130 | every time a float holds has few enough digits to be printed and read back |
| `KeyRuns.StampIsIdempotent` | neurons/executor/src/services/ssh_service.py:116-154 | stamping again changes nothing |
| `KeyRuns.StampedKeysExpire` | neurons/executor/src/services/ssh_service.py:116-181 | after any uploads and purges, a purge later than the stamp plus the time to live leaves no line the stamp marked, unless an overflowing marker was there before |
| `KeyRuns.PurgeAfterStamp` | neurons/executor/src/services/ssh_service.py:116-181 | directly after the stamp such a purge leaves exactly what the stamp left alone and is live, in order |
| `KeyRuns.RemoveAfterUploads` | neurons/executor/src/services/ssh_service.py:208-230 | after any uploads, refused ones included, a removal deletes exactly the lines of that key and keeps all others byte for byte, in order |
| `PrePull.LruIsOldest` | neurons/executor/src/services/pre_pull_service.py:142-150 | the choice is the least recently used image, the first inserted among equals; none only when all are skipped |
| `PrePull.Lru` | neurons/executor/src/services/pre_pull_service.py:142-150 | the loop returns that choice |
| `PrePull.PrePuller.MakeRoom` | neurons/executor/src/services/pre_pull_service.py:442-476 | it ends for all disk readings, refusals and changes of the mandatory set; the images tried, when it succeeds, and what stays tracked |
| `PrePull.PrePuller.RemoveTracked` | neurons/executor/src/services/pre_pull_service.py:467-476 | an image stops being tracked exactly when docker removed its tag and its pinned digest |
| `PrePull.VictimsAreLeastRecent` | neurons/executor/src/services/pre_pull_service.py:442-465 | each victim is tried once, is tracked, not served, not the kept one, not mandatory when chosen, and used before every other candidate |
| `PrePull.PrePuller.MakeRoomOnDisk` | neurons/executor/src/services/pre_pull_service.py:442-465 | on a disk that gains what each image frees, the images tried are the shortest run in least recently used order that makes the room, and there is no room exactly when all evictable images together do not make it |
| `PrePull.LruOrderIsSorted` | neurons/executor/src/services/pre_pull_service.py:142-150 | that order holds exactly the evictable images, each used before all that follow it |
| `PrePull.PicksFollowOrder` | neurons/executor/src/services/pre_pull_service.py:442-465 | under a fixed mandatory set the images tried are its first ones |
| `PrePull.PrePuller.EvictUnlisted` | neurons/executor/src/services/pre_pull_service.py:400-431 | exactly which images go; each had been neither listed nor mandatory in every sweep of at least the configured time |
| `PrePull.PrePuller.MarkUnlisted` | neurons/executor/src/services/pre_pull_service.py:408-417 | `unlisted_since` stays the time of the first sweep of the current unlisted streak |
| `PrePull.PrePuller.RemoveDue` | neurons/executor/src/services/pre_pull_service.py:418-431 | due images go in order until a rental shows up, but for those made mandatory meanwhile or refused by docker |
| `PrePull.PrePuller.RecordPresent` | neurons/executor/src/services/pre_pull_service.py:131-133 | a new image starts tracked with no unlisted time, a tracked one keeps its times |
| `PrePull.PrePuller.TouchUsed` | neurons/executor/src/services/pre_pull_service.py:135-137 | only the last use of tracked rented images changes |
| `PrePull.PrePuller.SweepOnce` | neurons/executor/src/services/pre_pull_service.py:307-398 | a whole sweep keeps those clocks and never gives up a served image that is not mandatory |
| `PendingLogs.NewestWithinBytes` | neurons/executor/src/storage/reporting.py:380-388 | the result is the longest suffix that fits |
| `PendingLogs.CutAsYouGo` | neurons/executor/src/storage/reporting.py:108-110 | cutting after every line equals cutting once at the end |
| `PendingLogs.NewestIsKept` | neurons/executor/src/storage/reporting.py:102-112 | the newest line, cut to 2000 characters, always fits |
| `PendingLogs.BookStaysFaithful` | neurons/executor/src/storage/reporting.py:102-112 | for any pattern of failures each report that got through carried the longest fitting suffix of the lines since the one before, and no other line was cleared |
| `Reporter.StorageEventReporter.PutProgress` | neurons/executor/src/storage/reporting.py:260-303 | a progress report comes at least 10 s after a success and 5 s after a failure, is not held off beyond 60 s, and clears lines only when it got through |
| `Reporter.Backoff` | neurons/executor/src/storage/reporting.py:296-299 | the delay before the random factor is between 10 s and 60 s for every number of failures |
| `Reporter.StorageEventReporter.PutTerminal` | neurons/executor/src/storage/reporting.py:260-307 | it ends within 2·timeout + 2 attempts, with the report through, the operation gone or the lease expired; every delay doubles up to the cap and is cut at the lease |
| `Reporter.StorageEventReporter.Send` | neurons/executor/src/storage/reporting.py:68-137 | every event keeps the timing and log invariants; progress never falls and stays below 100 until a completed result |
| `Reporter.StorageEventReporter.PendingIsLongestSuffix` | neurons/executor/src/storage/reporting.py:102-112 | at any time the pending lines are the longest fitting suffix of all lines since the last report that got through |
| `LoginSpool.Spool.Record` | neurons/executor/sshd_log_receiver.py:82-106 | the queue only grows at its end, an unread rotated file is never overwritten, each login is a line or counted once, the size stays within the cap and one line of each kind; what exactly is written |
| `LoginSpool.Spool.DeleteRead` | neurons/executor/sshd_log_receiver.py:21-22 | the reader's deletion moves the rotated lines to what was read and leaves the queue as it is |
| `LoginSpool.WriteCounts` | neurons/executor/sshd_log_receiver.py:100-106 | a written login and its drop note account for all logins dropped before it |
| `LoginSpool.DropStaysBounded` | neurons/executor/sshd_log_receiver.py:88-93 | a full spool gets one marker and then nothing more |
| `LoginSpool.Receiver.Receive` | neurons/executor/sshd_log_receiver.py:118-143 | waiting logins are the newest received, in order and at most 1000; those before them were recorded in the order they came, but for a counted number left out |
| `LoginSpool.Receiver.Shed` | neurons/executor/sshd_log_receiver.py:141-143 | only the oldest waiting logins are given up, and only down to 1000 |
| `LoginSpool.Receiver.NoneShed` | neurons/executor/sshd_log_receiver.py:136-139 | while nothing was given up, recorded and waiting logins together are all that were received |
| `StaleTask.ShimPids` | neurons/executor/src/services/stale_task_recovery.py:64-81 | for every table, cyclic ones too, the growing list ends without repeats as the least set with the task's processes that is closed under children |
| `StaleTask.FirstTask` | neurons/executor/src/services/stale_task_recovery.py:19-27 | it finds the first message and none before it, and nothing only when there is no message |
| `StaleTask.RecoverStaleTask` | neurons/executor/src/services/stale_task_recovery.py:93-124 | containers are taken in order, each with its own process scan; one is started only when it was stale before and after the scan and the whole tree was killed and is gone or zombie; a blocked tree is not touched; every container passed over was not stale |
| `StaleTask.WaitGone` | neurons/executor/src/services/stale_task_recovery.py:116-121 | it succeeds exactly when in some second of the wait every process is gone or a zombie |

## Left out

- Watchtower.Docker.FindRunner: beside a container named `executor-runner` a leftover is not repaired, because the code returns that container at once; the repair is stated for labelled runners and for a lone CVM leftover.
- Watchtower.Docker.Restore: does not say that the restored runner runs, because the code does not start it.
- ByteText.ParseOfDecimal: says nothing of numerals with underscores or leading zeros, which `int` and the model also accept.
- The person who deletes the record file by hand, and transactions another wallet sends with the same key.
- Undecodable record bytes are one case; the fields of an RLP list, hexadecimal text and keyed RPC URLs are not modelled.
- The calls of the CLI around the client.
- Storage slots, `_low` and the Substrate keys: a request's four words are one value.
- Torn writes, file modes and temporary files.
- Non-ASCII key text is kept as characters rather than as UTF-8 bytes.
- The pull itself, `_retire_superseded`, digest verification and signature checks.
- Stages, counts and messages of storage reports, and credential renewal.
- The regular expression for sshd login lines and the per-source limit switch; logins enter the model already recognised.
- A restart of the login receiver loses its drop counter; the spool results are for one process.
- A kill that raises anything but `ProcessLookupError`.
- Restic, workspace, cache prefetch, live log streams, wire models, settings, validators and miners' services: data declarations, plumbing or easier members.
