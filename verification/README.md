# Facelock in Dafny

A model of the parts of facelock whose behaviour is decided by protocols, loops and
arithmetic rather than by devices, with proofs about them. `dafny verify dfyconfig.toml`
covers the whole project.

## What is modelled

**The lifecycle lease** (`Lifecycle*.dfy`). The exclusion protocol of the command line
tool is a labelled transition system. Its shared machine is the file lock, the object at
the control path with its inode, the service manager's cached load state (changed only by
a reload), the daemon's activity and its bus name. Any number of processes take part, each
with a main thread, a signal thread, the `finished` gate and the shared restore slot.
Labels carry everything the code cannot choose: failing unit calls, expired waits, signals,
kills, activation attempts, outside reloads and tampering. The results are about every run.
`stage` and `restore` also appear in their own sequential form, as methods of a class that
mutate its state, and each is shown to perform a run of the transition system whatever the
environment does between its calls.

**Config path identity** (`ConfigPaths*.dfy`). Kernel path resolution over a filesystem with
symbolic links and a limit on links followed, the rewrite loops on top of it, and what the
rewrite means in every later filesystem.

**Name patterns and IR classification** (`NamePattern.dfy`, `IrClassify.dfy`). The greedy
wildcard matcher against a declarative reading, the demotion loop and the per-node verdict
against closed forms over the entries that hit, and the five selection rounds.

**Calendar and audit log** (`Calendar.dfy`, `Timestamp*.dfy`, `AuditLog.dfy`,
`AuditWriters.dfy`). Day-to-date arithmetic against counting days on the proleptic Gregorian
calendar, timestamps in the profile of section 5.6 of RFC 3339, and the rotating log: runs of
faulty calls by one writer, and interleaved system calls of several, since nothing locks it.

**Pixels** (`Pixels.dfy`, `Greys.dfy`, `Clahe*.dfy`). YUYV, NV12, strided GREY
and Y16 decoding, luma and colour against ITU-R BT.601, and CLAHE. Tile edges are exact, as
they are in double precision with a divisor of eight; the tone map and the interpolation are
taken over the reals and rounded down.

**Capture sessions** (`CaptureSession.dfy`, `CaptureTheorems.dfy`, `Mplane*.dfy`). The Y16
scale and the warmup that three files account for together, and buffer ownership in the
multi-planar stream with an honest driver that fills and returns buffers in order.

**Component archives** (`Archive*.dfy`). Member validation, ordered creation and rollback.

## What the proofs say about the code

- `release` can return Ok with the barrier still on disk. It does so exactly when the signal
  thread's acknowledgement wait expired, the termination hook came back, and the slot was empty.
- In the same situation an operation that has not finished loses the lock. From then on other
  processes can lift the exclusion under it.
- A created barrier that fails its own identity test is left at the control path, where every
  later acquisition refuses it as foreign.
- `remove_barrier` looks and then unlinks by name. An object put there in between is removed,
  and the restore can still succeed.
- A crash after the daemon was stopped loses the note to start it again. The next lease adopts
  the barrier and releases it with the daemon stopped.
- The comment on `resolve_once` says that a component that does not exist cannot be a symbolic
  link. A dangling link does not resolve and is one; a `..` after it makes the rewrite name
  another file. The exact condition is computed on the filesystem as it is.
- The comment on `RESOLVE_PASSES` expects chains that need many passes. Two settle every path
  unless the limit on links cuts a walk off; each further pass only restarts that limit.
- A dangling link and the path it points at are judged different files, though they will be one.
- The format preference and the group-size test in the demotion loop never change a verdict.
- A failed top-up after calibration leaves the Y16 scale pinned, so the next capture skips the
  rest of the warmup.
- A multi-planar stream whose priming fails after its first buffer is queued can never start:
  each later call queues a buffer the driver holds.
- Discarding `MMAP_BUFFERS - 1` stale frames is enough with four granted buffers only if the
  last capture before the pause left a frame in hand. A capture that timed out gives its buffer
  back first, and then all four can be stale. The stream also maps more buffers than it asked
  for when the driver grants them.
- Two writers of the audit log that find the same full file can rename twice. The second rename
  puts a one-line file over the whole rotated log.
- After a write of the audit log that was cut short, the next entry continues its line.
- Once anything is clipped, the darkest level of a CLAHE tile need not map to black; it can map
  to white.
- Timestamps stop sorting as text, and stop being RFC 3339, at year 10000.
- A fault on the `chmod` of an archive's root, or an interrupt right after it, comes before the
  rollback flag is set and leaves the root directory behind.

## Model

| member | source | states |
|---|---|---|
| LifecycleSafety.StepKeeps | crates/facelock-cli/src/lifecycle.rs:702-1087 | every step of every process and of the environment keeps the protocol invariant of the whole machine |
| LifecycleSafety.RunKeeps | crates/facelock-cli/src/lifecycle.rs:702-1087 | so does every finite run, however many processes take part and wherever they are killed |
| LifecycleTheorems.OneOwner | crates/facelock-cli/src/lifecycle.rs:369-430 | in every reachable state at most one process holds a staging, a lease or a restore |
| LifecycleTheorems.OperatingUnderLockExcludes | crates/facelock-cli/src/lifecycle.rs:928-1034 | while a lease that owns the lock is operating and nobody tampers with the control path, the barrier is on disk, the unit masked, the daemon inactive and off the bus, and no start has been issued |
| LifecycleTheorems.OperatingWithoutLock | crates/facelock-cli/src/lifecycle.rs:804-873 | an operating lease is without the lock exactly when the signal thread left activation barred, which means its acknowledgement wait expired |
| LifecycleTheorems.NoStartDuringOperation | crates/facelock-cli/src/lifecycle.rs:702-873 | no step of any process issues a start while another operation still owns the lock |
| LifecycleOutcomes.LeaseWithoutFailure | crates/facelock-cli/src/lifecycle.rs:928-1034 | over every run, a process that has not ended, and so every one about to arm or holding a lease, made the calls of `acquire` in their order and none of them failed |
| LifecycleOutcomes.CallEndsIff | crates/facelock-cli/src/lifecycle.rs:1098-1224 | a call of the acquisition ends it if and only if it failed or what it found rules the lease out, and then a full restore takes everything staged so far |
| LifecycleTheorems.SignalRestoresIffFinished | crates/facelock-cli/src/lifecycle.rs:804-873 | a signal thread that stops waiting restores in full if and only if the operation is marked finished, as it is once a release or a drop has begun |
| LifecycleRecovery.ExclusionIffLock | crates/facelock-cli/src/lifecycle.rs:781-873 | for an operation in progress, exclusion survives everything the others can do if and only if its lease still owns the lock |
| LifecycleRecovery.UnlockedOperationCanBeOverrun | crates/facelock-cli/src/lifecycle.rs:781-873 | the failing half: from every state in which an operating lease has lost the lock, others alone can lift the barrier and, where the unit can be loaded, have the daemon running under the operation |
| LifecycleTheorems.RestoresOnce | crates/facelock-cli/src/lifecycle.rs:771-776 | restoration begins at most once across release, drop, signal and arm failure, and exactly once for a lease that has ended |
| LifecycleTheorems.ReleaseOk | crates/facelock-cli/src/lifecycle.rs:1036-1050 | the step that returns Ok from `release` after its own restore leaves the lock free, no barrier, the unit unmasked, and a start issued exactly when the daemon was active at acquisition |
| LifecycleTheorems.BarredReleaseOk | crates/facelock-cli/src/lifecycle.rs:1057-1072 | the step that returns Ok from the barred release keeps the barrier and the mask and has issued no start |
| LifecycleTheorems.BarredReleaseNeverStarts | crates/facelock-cli/src/lifecycle.rs:1057-1072 | a process whose barred release reported Ok never issues a start, whatever signal races it |
| LifecycleTheorems.ReleaseOkLeavesBarrierIff | crates/facelock-cli/src/lifecycle.rs:1036-1050 | an Ok from `release` goes with a barrier left behind exactly when it did not restore itself and the acknowledgement wait had expired |
| LifecycleRecovery.ReleaseOkCanLeaveTheBarrier | crates/facelock-cli/src/lifecycle.rs:828-873 | a run in which `release` answers Ok with the barrier still on disk |
| LifecycleRecovery.NextLeaseRecovers | crates/facelock-cli/src/lifecycle.rs:575-678 | from every reachable untampered state with the lock free and the daemon settled, the next fault-free acquisition is refused exactly if the barrier is gone and the unit still masked, or an object that is no exact barrier is at the control path; otherwise it adopts what it finds and its release ends unmasked with no barrier |
| LifecycleRecovery.FailedCreationLeavesForeign | crates/facelock-cli/src/lifecycle.rs:639-657 | a run without tampering that leaves such an object: a created barrier that fails its own identity test is not rolled back |
| LifecycleRecovery.ForeignIsFinal | crates/facelock-cli/src/lifecycle.rs:575-616 | short of tampering no run of any processes ever clears it |
| LifecycleRecovery.KilledBeforeReload | crates/facelock-cli/src/lifecycle.rs:702-767 | the stale mask is reachable: a kill between unlink and reload |
| LifecycleRecovery.CrashForgetsTheDaemon | crates/facelock-cli/src/lifecycle.rs:1137-1186 | after a kill that follows the stop, the next lease is released with Ok and the daemon stays stopped |
| LifecycleForeign.OnlyAnUnlinkRemoves | crates/facelock-cli/src/lifecycle.rs:619-678 | no step of any process replaces what is at the control path, and only the unlink of a restore whose look had matched removes it |
| LifecycleForeign.UnlinkRemovesForeignIff | crates/facelock-cli/src/lifecycle.rs:661-678 | over every run between the two, that unlink removes an object the process does not hold if and only if the control path was tampered with after the look and something is there |
| LifecycleForeign.ForeignObjectUnlinked | crates/facelock-cli/src/lifecycle.rs:661-678 | a run in which an administrator's file is removed that way |
| LifecycleStage.Lease.Restore | crates/facelock-cli/src/lifecycle.rs:702-767 | whatever fails and whatever happens between its calls, the sequential `restore` performs a run of the transition system whose outcomes are the ones its calls had, and gives the lock back; when nothing fails or happens in between it undoes the barring and succeeds exactly if the unit is then unmasked, and loaded where it is to be started |
| LifecycleStage.Lease.RemoveBarrier | crates/facelock-cli/src/lifecycle.rs:661-678 | a look and then an unlink by name, as two steps of the transition system with anything between them; a failure of either is reported and the restore goes on; undisturbed it removes the guard's own object and spares any other |
| LifecycleStage.Lease.Acquire | crates/facelock-cli/src/lifecycle.rs:939-957 | a staging that fails is rolled back by a full restore and the lock is free again |
| LifecycleRestore.RestoreOkUndoes | crates/facelock-cli/src/lifecycle.rs:702-767 | an uninterrupted full restore without errors ends with no barrier, the base load state, not masked, the lock free and the daemon started exactly if asked |
| LifecycleRestore.RestoreTakesEveryStep | crates/facelock-cli/src/lifecycle.rs:702-767 | an uninterrupted full restore reloads, asks for the start and gives the lock back whatever failed before, and reports an error if and only if one of its calls failed or did not have its effect |
| LifecycleRestore.RestoreSparesForeign | crates/facelock-cli/src/lifecycle.rs:661-678 | an uninterrupted restore that finds another inode at the control path leaves it and reports an error |
| LifecycleStage.Lease.Stage | crates/facelock-cli/src/lifecycle.rs:1137-1186 | whatever fails and whatever happens between its calls, the sequential `stage` with its mutated state performs a run of the transition system whose outcomes are the ones its calls had: ready to arm with none of them failed, or to be rolled back |
| LifecycleStage.Lease.Admit | crates/facelock-cli/src/lifecycle.rs:1098-1162 | delegation, probe and admission, each with the outcome its call had, and a stale barrier adopted |
| LifecycleStage.Lease.MakeBarrier | crates/facelock-cli/src/lifecycle.rs:619-657 | a creation that passes its own test goes on to the reload and every other outcome to the rollback, each as a run of the transition system |
| LifecycleStage.Lease.AwaitStopped | crates/facelock-cli/src/lifecycle.rs:1188-1206 | the polling loop ends inactive, or rolls back when a poll fails or the deadline has passed |
| LifecycleStage.Lease.AwaitUnnamed | crates/facelock-cli/src/lifecycle.rs:1208-1224 | the polling loop ends with the bus name free, or rolls back when a poll fails or the deadline has passed |
| LifecycleStage.StagedIsReachable | crates/facelock-cli/src/lifecycle.rs:1137-1186 | the run a staging performs is one of the whole machine, so the results above hold of it |
| LifecycleStage.StagedExcludes | crates/facelock-cli/src/lifecycle.rs:928-973 | a staging that succeeded without tampering has the daemon excluded under its own lock and knows whether to start it again |
| ConfigPaths.ResolveOnce | crates/facelock-core/src/paths.rs:149-170 | the nested loops compute the rewrite: the longest existing prefix made canonical, the rest folded |
| ConfigPaths.ResolvedIdentity | crates/facelock-core/src/paths.rs:128-138 | the loop computes the rewrite repeated until it stops changing, at most four times; what that comes to is in ConfigPathsPasses |
| ConfigPaths.CanonicalIsReal | crates/facelock-core/src/paths.rs:149-155 | what `canonicalize` returns exists, is no link and is canonical |
| ConfigPaths.ExistingResolves | crates/facelock-core/src/paths.rs:149-170 | an existing path is rewritten to its canonical spelling, and that one to itself |
| ConfigPaths.DifferentIffPlacesDiffer | crates/facelock-core/src/paths.rs:112-138 | for existing paths `names_a_different_file` is exactly inequality of canonical places |
| ConfigPathsLater.ResolveKeepsMeaning | crates/facelock-core/src/paths.rs:140-170 | in every later filesystem that adds only plain files and directories, path and rewrite name the same object, provided no `..` of the unresolved tail pops an existing or dangling link |
| ConfigPathsLater.IdentityKeepsMeaning | crates/facelock-core/src/paths.rs:122-138 | the same for the iterated rewrite |
| ConfigPathsLater.SameVerdictIsSound | crates/facelock-core/src/paths.rs:108-114 | two paths judged the same file are the same file in every later filesystem in which both exist |
| ConfigPathsLater.UnresolvedIsDifferent | crates/facelock-core/src/paths.rs:146-148 | a relative path whose first name does not exist stays as spelled and differs from every absolute path and every one whose first name exists |
| ConfigPathsForecast.ForeseeExact | crates/facelock-core/src/paths.rs:140-148 | a walk with missing names taken as directories to come foretells exactly when a later walk succeeds and where it ends |
| ConfigPathsForecast.StandsForIff | crates/facelock-core/src/paths.rs:140-148 | one path stands for another in every later filesystem if and only if their forecasts agree in the present one |
| ConfigPathsForecast.ResolveStandsForIff | crates/facelock-core/src/paths.rs:149-170 | `resolve_once` keeps the meaning of a path if and only if the forecasts of path and rewrite agree, which they do when no `..` pops a link |
| ConfigPathsForecast.DanglingLinkBreaksMeaning | crates/facelock-core/src/paths.rs:140-143 | the comment's claim fails for a dangling link: a concrete path and filesystem |
| ConfigPathsPasses.OnePassIff | crates/facelock-core/src/paths.rs:120-138 | one pass is enough if and only if the existing front of what it leads to passes no link |
| ConfigPathsPasses.TwoPassesIff | crates/facelock-core/src/paths.rs:120-138 | two are enough if and only if the name at which the second stopped stays unresolved with a fresh limit on links |
| ConfigPathsPasses.IdentityIsFixpoint | crates/facelock-core/src/paths.rs:128-138 | so for every path that the limit on links does not cut off, the identity is the second rewrite and a fixpoint |
| ConfigPathsPasses.SecondPassNeeded | crates/facelock-core/src/paths.rs:122-127 | one pass judges a path through a missing name and `..` different from the place a link puts it; the loop judges it the same |
| ConfigPathsPasses.ManyLinksIff | crates/facelock-core/src/paths.rs:116-120 | where the limit does cut off, four passes follow 160 links of one path, and a path with more counts as different: an if and only if over a family of paths |
| ConfigPathsPasses.IdentityIsForeseenIff | crates/facelock-core/src/paths.rs:108-138 | a path that need not exist has the place it is foreseen to name as its identity if and only if no unresolved link is in the way |
| ConfigPathsPasses.SameVerdictIff | crates/facelock-core/src/paths.rs:108-114 | of two paths foreseen to end at the same place the verdict is `same file` if and only if they get stuck at the same unresolved link, or neither does |
| ConfigPathsPasses.VerdictIsForeseen | crates/facelock-core/src/paths.rs:108-114 | where no unresolved link is in the way the verdict on paths that need not exist is exactly whether the foreseen places differ |
| ConfigPathsPasses.DanglingIsDifferent | crates/facelock-core/src/paths.rs:108-111 | the failing half: a dangling link and the path it points at will be one file and are judged different |
| NamePattern.NameMatches | crates/facelock-camera/src/quirks.rs:465-525 | the greedy matcher accepts exactly what the declarative reading accepts: literals in order, any gap at each `.*`, anchored at unwildcarded ends; the empty pattern accepts every name |
| NamePattern.MatchParts | crates/facelock-camera/src/quirks.rs:496-524 | the loop over the parts decides the declarative reading of the literals |
| NamePattern.LiteralsRead | crates/facelock-camera/src/quirks.rs:485-494 | splitting on `.*` and dropping empty parts keeps the reading of the pattern |
| NamePattern.GreedyStep | crates/facelock-camera/src/quirks.rs:517-521 | taking the earliest occurrence loses no match while more is to come |
| IrClassify.ClassifyIrSources | crates/facelock-camera/src/device.rs:330-413 | the loop with its `seen` list computes the closed form: a quirk-IR node with a USB identity becomes not-IR exactly when it has no mono format and a same-identity quirk-IR node has one |
| IrClassify.Demote | crates/facelock-camera/src/device.rs:381-409 | the sibling pass over one group |
| IrClassify.PreferenceIsIdle | crates/facelock-camera/src/device.rs:370-390 | the clause on the quirk's format preference never changes the answer |
| IrClassify.PassResolves | crates/facelock-camera/src/device.rs:363-409 | one pass settles every node of its identity, and testing the group's size changes nothing |
| IrClassify.EnumerationOrderIsIdle | crates/facelock-camera/src/device.rs:330-413 | permuting the enumeration permutes the verdicts |
| IrClassify.WithoutIdentityOnlyMonoIsIr | crates/facelock-camera/src/device.rs:160-288 | a node with neither USB nor platform identity is IR exactly when its whole non-empty format set is mono and no quirk naming it says otherwise, for every database, name and set of siblings |
| IrClassify.NodeSourceIff | crates/facelock-camera/src/device.rs:255-288 | a node by itself is quirk-IR if and only if the last loaded entry of the most specific kind that hits it says so and it matched a hardware identity, or the node has a USB identity or mono formats only; it is format-IR if and only if it is mono only and no entry decides |
| IrClassify.ResolvedIff | crates/facelock-camera/src/device.rs:330-413 | the verdict among siblings, stated with the entries that hit, what they say and the formats alone |
| IrClassify.LoneNodeIff | crates/facelock-camera/src/device.rs:263-280 | a node without siblings is quirk-IR if and only if the entry that decides says so and is corroborated |
| IrClassify.SiblingPassKeepsAnIrNode | crates/facelock-camera/src/device.rs:330-413 | the sibling pass never makes a node IR and never empties a device of quirk-IR nodes |
| IrClassify.PickIsFirstOfLowestTier | crates/facelock-camera/src/device.rs:504-535 | the pick is the first decodable node of the lowest of five tiers, and there is none exactly when no node is decodable |
| IrClassify.PickPrefersIr | crates/facelock-camera/src/device.rs:504-535 | a non-IR node is never picked over a decodable IR one |
| Calendar.InvertsDayNumber | crates/facelock-daemon/src/audit.rs:146-159 | `days_to_ymd` inverts the day number of every valid Gregorian date from the epoch on |
| Calendar.DaysToYmdCounts | crates/facelock-daemon/src/audit.rs:146-159 | it agrees with counting days one by one from 1970-01-01, so n+1 maps to the calendar successor |
| Calendar.DaysToYmdIsABijection | crates/facelock-daemon/src/audit.rs:146-159 | it is a bijection between day numbers and valid dates from the epoch on |
| Calendar.DaysToYmdIsMonotone | crates/facelock-daemon/src/audit.rs:146-159 | later days have later dates |
| Timestamp.IsoSorts | crates/facelock-daemon/src/audit.rs:128-143 | printed timestamps sort as text in time order and are distinct, through year 9999 |
| Timestamp.SortsBelowIff | crates/facelock-daemon/src/audit.rs:128-143 | all timestamps before an instant sort as text in time order if and only if that instant is no later than the start of the year 10000 |
| Timestamp.IsoBreaksAtTenThousand | crates/facelock-daemon/src/audit.rs:128-143 | the pair of instants on which the order breaks |
| TimestampRead.ReadsBackIff | crates/facelock-daemon/src/audit.rs:128-143 | a reader of RFC 3339 timestamps gets from the text the date that many days after the epoch and the second of the day, for every instant through year 9999, and reads nothing from a later one |
| AuditLog.Log.Write | crates/facelock-daemon/src/audit.rs:63-115 | the new contents of both files after an uninterrupted call, whatever fails; nothing when disabled |
| AuditLog.Log.Rotate | crates/facelock-daemon/src/audit.rs:118-125 | the current file becomes the rotated one, or nothing changes |
| AuditLog.FaultlessWrite | crates/facelock-daemon/src/audit.rs:84-115 | a call on which nothing fails adds its line and a newline, to a new file once the old one has as many mebibytes as configured |
| AuditLog.FaultyWrite | crates/facelock-daemon/src/audit.rs:63-125 | what each failure leaves untouched |
| AuditLog.OwnLineIff | crates/facelock-daemon/src/audit.rs:92-115 | a line that got through whole is the last line of the log if and only if the file it went to was empty or ended in a newline |
| AuditLog.RunHolds | crates/facelock-daemon/src/audit.rs:63-125 | over every run of calls and faults of one writer, from any files, the rotated file holds exactly one consecutive stretch of everything there ever was and the current file exactly the rest |
| AuditLog.NewestAreKept | crates/facelock-daemon/src/audit.rs:63-125 | so with one writer both files together are the end of everything there ever was, and once anything is lost they hold at least the rotation limit |
| AuditLog.FilesAreBounded | crates/facelock-daemon/src/audit.rs:84-90 | with one writer whose renames succeed each file stays below the limit plus one line, or within the size it was found with |
| AuditLog.FailingRenameKeepsAll | crates/facelock-daemon/src/audit.rs:118-125 | while renames fail nothing leaves the current file |
| AuditLog.FailingRenameUnbounded | crates/facelock-daemon/src/audit.rs:118-125 | so it grows past every bound |
| AuditWriters.FilesHoldTheirWrites | crates/facelock-daemon/src/audit.rs:63-125 | in every interleaving of any number of writers each file holds what it held and the writes made to it, in their order |
| AuditWriters.RotatedStaysFull | crates/facelock-daemon/src/audit.rs:84-125 | in every interleaving without a stale rename, a rotated file that replaced another holds at least the rotation limit |
| AuditWriters.CurrentUntilRenamed | crates/facelock-daemon/src/audit.rs:84-125 | over every interleaving the file a writer measured is still the current one at its rename if and only if no other rename fell between |
| AuditWriters.CollisionLosesTheLog | crates/facelock-daemon/src/audit.rs:84-125 | an interleaving of two writers that loses the whole log and keeps one line, for every limit and every full log |
| AuditWriters.AloneIsWritten | crates/facelock-daemon/src/audit.rs:63-115 | a call nobody comes between does to the two files what the single writer's call does |
| Pixels.YuyvToRgb | crates/facelock-camera/src/preprocess.rs:38-51 | the loop decodes whole four-byte groups into two pixels sharing a chroma pair |
| Pixels.Nv12ToRgb | crates/facelock-camera/src/preprocess.rs:58-79 | refused exactly when shorter than a full frame; otherwise decoded with every index inside the buffer, for odd sizes too |
| Pixels.Nv12Inside | crates/facelock-camera/src/preprocess.rs:62-75 | the luma and chroma bytes of every pixel lie in a buffer that passed the length check |
| Pixels.Nv12RoundTrip | crates/facelock-camera/src/preprocess.rs:53-79 | decoding any 4:2:0 image packed as NV12 gives the image's own pixels |
| Pixels.YuyvRoundTrip | crates/facelock-camera/src/preprocess.rs:35-51 | so does decoding an even-width one packed as YUYV |
| Pixels.PackingsDecodeAlike | crates/facelock-camera/src/preprocess.rs:53-79 | both packings of an even-width image decode to the same RGB, for every per-pixel colour conversion |
| Greys.RedFollowsBt601 | crates/facelock-camera/src/preprocess.rs:3-33 | the red channel stays within a level and a tenth of the BT.601 matrix |
| Greys.GreenFollowsBt601 | crates/facelock-camera/src/preprocess.rs:3-33 | the green channel likewise |
| Greys.BlueFollowsBt601 | crates/facelock-camera/src/preprocess.rs:3-33 | the blue channel likewise |
| Greys.LumaFollowsBt601 | crates/facelock-camera/src/preprocess.rs:174-183 | the Q8 luma stays within one and a half levels of the BT.601 weights |
| Greys.NeutralImageIsGrey | crates/facelock-camera/src/preprocess.rs:18-33 | an image without colour decodes to its own luma plane |
| Greys.GreyToRgb | crates/facelock-camera/src/capture.rs:338-360 | succeeds exactly if the stride is at least the width and the buffer holds the last row, with the unpadded samples three times each |
| Greys.ChunkHoldsRow | crates/facelock-camera/src/capture.rs:353-354 | the row error inside the loop cannot occur |
| Greys.GrayOfReplicated | crates/facelock-camera/src/preprocess.rs:174-183 | `rgb_to_gray` undoes replication exactly |
| Greys.GreyRoundTrip | crates/facelock-camera/src/capture.rs:338-360 | whatever the row padding, a delivered GREY frame comes back from its RGB exactly |
| Clahe.TilesPartition | crates/facelock-camera/src/preprocess.rs:198-215 | the 64 tiles partition every image: pixels of every kind are counted exactly once between them |
| Clahe.TileCountsAddUp | crates/facelock-camera/src/preprocess.rs:198-215 | the tile counts add up to width times height |
| Clahe.LimitedKeepsTotal | crates/facelock-camera/src/preprocess.rs:225-243 | clipping and redistribution keep a histogram's total |
| Clahe.LimitedSpreadsEvenly | crates/facelock-camera/src/preprocess.rs:235-243 | the excess is shared out evenly, a level getting at most one more than a later one |
| Clahe.TileTotalIsCount | crates/facelock-camera/src/preprocess.rs:207-243 | which is the number of the tile's pixels |
| Clahe.ClipLimitIsTwiceAverage | crates/facelock-camera/src/preprocess.rs:225-227 | the clip limit is twice the average bin, at least one, rounded down |
| Clahe.ToneMonotone | crates/facelock-camera/src/preprocess.rs:245-263 | each tone map is monotone into 0..255 |
| Clahe.ToneReachesWhite | crates/facelock-camera/src/preprocess.rs:252-263 | the brightest value maps to 255 |
| Clahe.ToneScales | crates/facelock-camera/src/preprocess.rs:252-263 | a tone is the share of the pixels outside the first occupied level that lie at or below it, scaled to 255 and rounded down; with one occupied level all stay as they are |
| Clahe.EmptyTileIsIdentity | crates/facelock-camera/src/preprocess.rs:217-223 | a tile without pixels maps every level to itself |
| Clahe.TileDarkestIsBlackIff | crates/facelock-camera/src/preprocess.rs:225-263 | the darkest level of a tile maps to 0 exactly if it is level 0, or nothing was clipped and the tile holds another level, or the excess returned to the levels from 1 up to it still rounds down to nothing |
| Clahe.DarkestCanBeWhite | crates/facelock-camera/src/preprocess.rs:225-263 | a tile whose darkest level maps to 255: two pixels of level 100 |
| Clahe.SurroundingsLocate | crates/facelock-camera/src/preprocess.rs:271-282 | between the outermost tile centres the two tiles and the weight give back the pixel's position; outside them the edge tile alone counts |
| ClaheBlend.EqualisedIsHatSum | crates/facelock-camera/src/preprocess.rs:267-295 | the output is the sum over all 64 tiles of their values, each weighted by how near its centre is along the row and along the column, rounded down |
| ClaheBlend.RowsAlike | crates/facelock-camera/src/preprocess.rs:284-293 | where maps do not depend on the tile row, the two neighbouring tile columns are mixed by the pixel's place between their centres |
| ClaheBlend.ColumnsAlike | crates/facelock-camera/src/preprocess.rs:284-293 | where they do not depend on the tile column, the two neighbouring tile rows |
| ClaheBlend.CentreKeepsOwnMap | crates/facelock-camera/src/preprocess.rs:267-293 | at a tile's centre the output is the tile's own map |
| ClaheBlend.OnlyNearTilesMatter | crates/facelock-camera/src/preprocess.rs:271-293 | maps of tiles a whole tile away or more do not matter |
| ClaheBlend.AboveFirstCentres | crates/facelock-camera/src/preprocess.rs:274-282 | above the first row of centres only the first tile row matters |
| ClaheBlend.TileHoldsIff | crates/facelock-camera/src/preprocess.rs:198-206 | which pixels belong to which tile |
| Clahe.EqualisedMonotone | crates/facelock-camera/src/preprocess.rs:284-295 | at any position the interpolated map is monotone in the pixel value |
| Clahe.EqualisedBetween | crates/facelock-camera/src/preprocess.rs:284-295 | and lies between the values of the four surrounding tiles |
| Clahe.ClaheMonotone | crates/facelock-camera/src/preprocess.rs:187-300 | so CLAHE as a whole is monotone at every position of every image |
| ClaheRun.Histogram | crates/facelock-camera/src/preprocess.rs:207-215 | the counting loops fill the tile's histogram and its count |
| ClaheRun.Clip | crates/facelock-camera/src/preprocess.rs:228-234 | the clipping loop in place, and the excess it takes |
| ClaheRun.Redistribute | crates/facelock-camera/src/preprocess.rs:235-243 | the redistribution loop in place |
| ClaheRun.Normalise | crates/facelock-camera/src/preprocess.rs:252-263 | the normalisation loop computes the tone map |
| ClaheRun.TileMap | crates/facelock-camera/src/preprocess.rs:207-264 | the map of one tile, the identity when it is empty |
| ClaheRun.Equalise | crates/facelock-camera/src/preprocess.rs:187-300 | the whole of `clahe`: every output pixel is the interpolated map of its position, which ClaheBlend pins down, applied to its input |
| CaptureSession.Camera.constructor | crates/facelock-camera/src/capture.rs:624-641 | a valid quirk depth pins the shift at open, another format needs none |
| CaptureSession.Camera.Calibrate | crates/facelock-camera/src/capture.rs:235-306 | the burst takes at most the target, fewer when the clock cuts it, fails on the first fault or with no frame, and otherwise gives the shift of its brightest sample |
| CaptureSession.Camera.CaptureRgb | crates/facelock-camera/src/capture.rs:717-763 | calibration once, the top-up, and the conversion, with what each failure leaves |
| CaptureSession.OpenForPurpose | crates/facelock-cli/src/direct.rs:93-122 | the discards an open makes, their results dropped |
| CaptureTheorems.FitsFrom | crates/facelock-camera/src/preprocess.rs:96-104 | a sample fits eight bits under exactly the shifts from the one its peak implies |
| CaptureTheorems.CalibratedShiftIsLeast | crates/facelock-camera/src/capture.rs:235-306 | the pinned shift is the least under which no sample of any burst frame clamps |
| CaptureTheorems.ShiftIsPinned | crates/facelock-camera/src/capture.rs:717-733 | over any run of captures and failures the shift is set at most once and never changes |
| CaptureTheorems.VerifiedDepthNeverBursts | crates/facelock-camera/src/capture.rs:141-152 | a verified depth d pins d-8 for the whole run, and every capture takes exactly one frame |
| CaptureTheorems.ImpossibleDepthIsNone | crates/facelock-camera/src/capture.rs:141-152 | a bit depth outside 8 to 16 counts as none |
| CaptureTheorems.KeptIsLastDequeued | crates/facelock-camera/src/capture.rs:736-763 | a kept capture is the decoding of the frame dequeued last, or its scaled greys |
| CaptureTheorems.OneFrameACapture | crates/facelock-camera/src/capture.rs:736-763 | formats other than Y16 take one dequeue a capture and fail with it or with the decoder |
| CaptureTheorems.WholeBurst | crates/facelock-camera/src/capture.rs:235-306 | a burst the clock does not cut takes eight frames, or the warmup if that is more |
| CaptureTheorems.Y16RoundTrip | crates/facelock-camera/src/capture.rs:750-763 | the luma of a Y16 capture is the frame at the pinned scale |
| CaptureTheorems.Y16GrayOfSamples | crates/facelock-camera/src/preprocess.rs:161-170 | each little-endian sample is shifted, or clamped to white when it does not fit |
| CaptureTheorems.Y16GrayOrdered | crates/facelock-camera/src/preprocess.rs:161-170 | a brighter sample never converts to a darker value |
| CaptureTheorems.WarmupIsMet | crates/facelock-core/src/traits.rs:35-37 | on opens other than authentication on an unverified stream, with nothing failing, the dequeues before the first kept frame are the warmup, and exactly the longer of burst and warmup when a burst runs, for every cutoff |
| CaptureTheorems.WarmupMetIff | crates/facelock-cli/src/direct.rs:93-122 | for every feed, where the first capture after such an open is kept, the frames delivered before it reach the warmup exactly if no discarded dequeue faulted, and always where a burst ran |
| CaptureTheorems.SettlesIffToppedUp | crates/facelock-camera/src/capture.rs:204-211 | a capture that pins the scale settles at least the warmup if and only if its top-up does not fail |
| CaptureTheorems.FailedTopUpSkipsWarmup | crates/facelock-camera/src/capture.rs:721-733 | after a failed top-up the next capture skips the rest of the warmup: a concrete stream |
| CaptureTheorems.AuthenticationLeavesUnverified | crates/facelock-cli/src/direct.rs:81-90 | opening for authentication dequeues nothing from an unverified Y16 stream |
| Mplane.CaptureStream.Next | crates/facelock-camera/src/mplane.rs:223-259 | `next_frame` with every timeout and failing ioctl: what is queued, handed out and left |
| Mplane.SessionConserves | crates/facelock-camera/src/mplane.rs:151-259 | over any session each buffer is queued or is the one handed out, exactly once |
| Mplane.PendingIsNotQueued | crates/facelock-camera/src/mplane.rs:155-158 | once streaming, the buffer given back is never one the driver already holds |
| MplaneTheorems.PartPrimedIsStuck | crates/facelock-camera/src/mplane.rs:224-229 | a stream that queued some buffer without starting yields no frame ever again |
| MplaneTheorems.NotStartedRecoversIff | crates/facelock-camera/src/mplane.rs:224-229 | a stream not yet started can yield a frame exactly when it has queued nothing |
| MplaneTheorems.StreamingRecovers | crates/facelock-camera/src/mplane.rs:223-259 | once streaming, whatever failed before, a call in which nothing fails yields a frame |
| MplaneTheorems.YieldsIff | crates/facelock-camera/src/mplane.rs:223-259 | a call yields a frame if and only if the stream starts or gives its last buffer back, nothing on the way fails, and a buffer was filled before or is while it waits |
| MplaneTheorems.HonestIndex | crates/facelock-camera/src/mplane.rs:248-250 | an honest driver never hands back an unmapped buffer |
| MplaneTheorems.DiscardSufficesIff | crates/facelock-camera/src/capture.rs:18-26 | over every streaming session and pause, discarding k frames leaves only frames from after the pause if and only if at most k buffers were granted, or k+1 where the stream still holds a frame when the pause begins |
| MplaneTheorems.FixedDiscardIff | crates/facelock-camera/src/capture.rs:18-26 | so the fixed discard of three is enough if and only if fewer than four buffers were granted, or four where the stream still holds a frame |
| MplaneTheorems.TimedOutCaptureLeavesStale | crates/facelock-camera/src/mplane.rs:230-237 | with exactly the four buffers asked for, a timed-out capture before the pause leaves a stale frame behind the three discarded ones |
| Archive.SplitInjective | scripts/extract-component-archive.py:44-45 | names differ exactly when their parts do |
| Archive.SplitJoin | scripts/extract-component-archive.py:70-72 | a prefix of the parts, joined, is the name that splits into them |
| ArchiveCheck.Validate | scripts/extract-component-archive.py:36-74 | accepts exactly the archives whose names are safe, unique, normalised and closed under declared parents, and reports what they declare |
| ArchiveCheck.Collect | scripts/extract-component-archive.py:43-65 | the first loop fills the dictionary and both sets, or refuses an archive that is not acceptable |
| ArchiveCheck.AllHaveParents | scripts/extract-component-archive.py:69-74 | the second loop decides that every proper prefix of every name is a declared directory |
| Archive.AcceptedIsSound | scripts/extract-component-archive.py:40-74 | in every accepted archive names are unique, begin with the root and are closed under directory parents |
| Archive.SafeNameIff | scripts/extract-component-archive.py:44-53 | a name is safe if and only if, from whatever directory, following it leads as many names down as it has parts, the root first |
| Archive.AcceptedStaysBelow | scripts/extract-component-archive.py:43-53 | so every member of an accepted archive leads below the root, to just the place its parts name |
| ArchiveExtract.ParentListedBefore | scripts/extract-component-archive.py:78-80 | in depth order every directory's parent comes before it |
| ArchiveExtract.SortNames | scripts/extract-component-archive.py:78-84 | both sorted orders list every name once, by depth and then name, or by name |
| ArchiveExtract.MakeListed | scripts/extract-component-archive.py:78-83 | the directory loop makes each path once with its parent present, records the root, and stops at the first fault |
| ArchiveExtract.MakeFiles | scripts/extract-component-archive.py:84-92 | the file loop makes each file once, with its contents and mode, under a directory already present |
| ArchiveExtract.Extract | scripts/extract-component-archive.py:76-96 | succeeds exactly when nothing fails or interrupts and then leaves exactly the declared tree; otherwise leaves what was there, except after a fault on the root's chmod or an interrupt before the root is recorded, which leave the bare root |
| ArchiveExtract.ExtractArchive | scripts/extract-component-archive.py:36-96 | validation and extraction together: every member exactly as declared beside what was there, with mode 0755 or, for files, 0644, or no change but for those two faults |

## Left out

- ioctls, memory mapping, sysfs, flock, systemctl and bus calls: abstract state with arbitrary outcomes instead.
- Clocks and timeouts: an expiry may come at any poll, and a calibration burst may be cut after any number of frames.
- File modes and owners in the lease: folded into "exact barrier" against "foreign object", and the control directory itself is not modelled.
- The signal thread, the gate and the slot: steps on values in the transition system, so mutexes and condition variables are not objects here; `stage` and `restore` are the parts with mutated state.
- Changing the barrier's inode in place: tampering replaces or removes the object at the control path.
- Activation delegation grammar, lock file identity and `systemctl show` parsing: single yes-or-no outcomes.
- ConfigPathsLater.ResolveKeepsMeaning: its condition on links is sufficient, not necessary; the exact one is ConfigPathsForecast.ResolveStandsForIff.
- Path prefixes other than the root, non-Unicode names, and path components that a filesystem refuses.
- Lowercasing in patterns and quirks: an arbitrary function on strings.
- Reading USB and platform identity and loading quirk files: a node comes with its identity, a database is a sequence.
- JSON serialization of audit entries, directory permissions and the path of the rotated file: a call comes with its line, and the two files are fields.
- AuditLog.Log.Write: one uninterrupted call; several writers are in AuditWriters.
- MJPG decoding, rotation and downscaling, and the row capacity hints of the converters.
- Floating-point rounding in CLAHE's tone map and interpolation: reals with rounding down.
- ClaheRun.Equalise: requires as many bytes as the image has pixels, where the source would panic on a shorter buffer.
- Format negotiation, IR emitter and LED control, darkness and texture checks.
- The single-planar stream of the `v4l` crate: code outside the repository; only its interface appears, as a feed of frames and faults.
- `with_buffers` and `drop` of the multi-planar stream, and how many bytes of a buffer were used: a stream starts with its buffers granted and mapped, and a frame is its buffer's index and time.
- CaptureTheorems.WarmupIsMet: the daemon's own acquisition loop is not modelled beyond the shared discard count.
- Faults of `rmtree` itself, interrupts inside one operation, and reading the compressed archive.
- Authentication, enrollment, liveness, storage, sealing, D-Bus and command-line plumbing.
