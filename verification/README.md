# The S3 write-back and mount lifecycle of lukscryptwalker-csi, in Dafny

The node driver of lukscryptwalker-csi serves S3 volumes through rclone: writes land
in a local VFS cache and are uploaded later, so for a while one node holds the only
copy. This project models how the driver keeps that copy safe across mounts,
unmounts, crashes and the hand-over of a volume from one node to another, and the
machinery that rests on: VFS names, private sessions, the host mount table, cache
upkeep and the limits on repair. Everything is checked with
`dafny verify dfyconfig.toml`.

## Parts

| file | what it models |
|---|---|
| `VfsNames.dfy` | names of VFS generations and their two inverses |
| `VfsListing.dfy`, `VfsRegistry.dfy` | counting vfs/list, `ensureExclusiveVFSName` and how many VFSes a name can get |
| `CacheDirs.dfy`, `DirtyScan.dfy`, `OrphanSweep.dfy`, `Eviction.dfy` | one cache directory and its upkeep |
| `NodeCache.dfy`, `Cluster.dfy` | mount, unmount, sweep, eviction, open, write, close, upload and crash as steps; conservation, restart and hand-over over whole runs of any number of nodes |
| `Runs.dfy`, `Hazards.dfy`, `Races.dfy`, `Verdicts.dfy`, `Settling.dfy` | the runs that break the strong claims, and exactly when they cannot |
| `Unstage.dfy`, `DrainSlots.dfy` | `cleanupS3Sync`, `unmount` and the drain bookkeeping as objects with mutable state |
| `Sessions.dfy` | private session mountpoints and teardown by path |
| `MountInfo.dfy`, `MountCache.dfy`, `MountStacks.dfy`, `ConsumerBinds.dfy` | the host mount table and what is built on it |
| `RepairGate.dfy`, `LogQueue.dfy` | repair backoff, restart cooldown, the lossy log writer |

## What is assumed of the environment

- Readable cache metadata records Dirty truthfully; unreadable metadata counts as dirty.
- A dirty item is queued, uploading or open. So when the queue is confirmed empty, every dirty item is open. Writing needs an open file.
- rclone revalidates a clean cached file against S3 before a write builds on it.
- An upload replaces the whole S3 object by the version in the cache.
- Clocks do not run backwards and do not stand still for ever.
- Consumers write only on the node the orchestrator assigned, and it assigns another only after NodeUnstageVolume succeeded (NodeUnstageVolume section of the CSI specification v1.12.0).
- Mounts and unmounts of one volume on one node are serialised. The driver takes a lock for that, except in `recoverStrandedVolumes`; what goes wrong without it is stated in `DrainSlots`.
- The PV of the volume exists (`NodeCache`, `Cluster`); `OrphanSweep` also covers deleted PVs.

RPCs that time out, failed renames, removals, reads and saves, walks that a vanishing directory ends early, crashes and
late registrations are not assumed away: they are parameters of the steps and methods.

`Cluster` knows three kinds of run. `AnyRun` is every run of these steps. A `QuietRun` is one in which no check is
overtaken before it is acted on: no write to a file an eviction pass is about to remove, no dirty file closed between that
pass's queue probe and its listing, no VFS left to consumers of a generation that is swept, or that an unmount has found
clean, no item of a reachable generation found corrupt and clean while it is validated, no directory vanishing under a walk;
and no corrupt item whose metadata moves to quarantine without its data. An `OrderlyRun` is quiet, has no force annotation,
and settles each mount on a generation only when no other one is dirty or reachable and no manager of another one is
registered.

## Where the driver does not meet the strong claim

Each of these has a lemma with a concrete case and one with the exact condition.

- The fast unstage path checks only the mounted generation: a dirty abandoned generation stays behind a success. Case: `Hazards.AbandonedGenerationHidesWrites`, and from any such state `Hazards.DirtyGenerationBehindIsUnsafe`. Exactly: `Hazards.FastUnstageIsSafeExactly`.
- The late upload of an abandoned generation replaces newer data. Case: `Hazards.StaleUploadReplacesANewerWrite`, and from any such state `Hazards.StaleUploadIsPossible`.
- A mount settles on a new generation beside a dirty one, one consumers still reach, or a manager of another one. Cases: `Hazards.StaleUploadReplacesANewerWrite`, `Settling.AnOldVfsIsEnough`, `Settling.AnOldManagerIsEnough`. Exactly: `Settling.SettlingAGenerationIsSafeExactly`, every orderly continuation is safe if and only if there is none of the three. This is the exact condition of the item above as well.
- The name map is rewritten in place, read without its lock, and its failed reads and saves are ignored: a restart can resume on another generation. Cases: `Hazards.TornMapStrandsWrites`, `Hazards.FailedSaveStrandsWrites`, `Hazards.LostEntryStrandsWrites`, `Hazards.UnreadableMapStrandsWrites`. Exactly: `Cluster.RestartResumesTheWrittenCache`, `Cluster.ASlipStrandsTheWrittenCache`.
- The eviction pass lists open files before it removes the others: a file written in between is lost. Case: `Races.EvictionTakesALaterWrite`. Exactly: `Races.WriteDuringEvictionIsSafeExactly`.
- The eviction pass probes the queue before it lists open files: a dirty file closed in between, by a close, a dying VFS or an unmount, is lost. Case: `Races.EvictionTakesAClosedFile`. Exactly: `Races.CloseBeforeListingIsSafeExactly`.
- The sweep checks a generation and then removes it: if consumers still reach it, or come to, a write in between is lost. Case: `Races.SweepTakesALaterWrite`. Exactly: `Races.SweepIsSafeExactly`, `Races.ExposingDuringASweepIsSafeExactly`.
- Validation checks an item and then removes it: if consumers still reach the generation, a write in between is lost. Case: `Races.ValidationTakesALaterWrite`. Exactly: `Races.ValidationIsSafeExactly`.
- Validation ignores a data rename that fails beside a metadata rename that works: the write is in no quarantine and looks uploaded. Case: `Races.HalfMovedItemIsLost`. Exactly: `CacheDirs.ValidationSparesDirtyExactly`.
- A session shutdown that runs out of time leaves its VFS, and the unmount goes on: a write between the directory check and the reclaim is lost. Case: `Verdicts.UnmountTakesALaterWrite`. Exactly: `Verdicts.WriteBeforeReclaimIsSafeExactly`.
- So is a write after the last check of an unstage without a manager, from the next node's view. Case: `Verdicts.CleanReportHidesALaterWrite`. Exactly: `Verdicts.CleanReportIsSafeExactly`.
- A metadata directory that vanishes under the walk ends it with "clean". Cases: `DirtyScan.VanishedFolderHidesDirt`, `Verdicts.WalkMissesAWrite`, `OrphanSweep.VanishedDirectoryLosesAGeneration`. Exactly: `DirtyScan.DirtyReportedExactly`, `Verdicts.ReclaimIsSafeExactly`, `OrphanSweep.ActiveGenerationSurvivesExactly`.
- A mount RPC that outlives its budget can still register its VFS: a retry that finds the name free can end with two. Case: `VfsRegistry.LateRegistrationGivesTwo`. Exactly: `VfsRegistry.SettlingIsSafeExactly`.
- `cleanupS3Sync` ignores whether it got the drain slot, `setupS3Sync` clears the marker outside the lock, and failed marker writes and listings are ignored. Cases: `DrainSlots.IgnoredClaimGivesTwoHolders`, `DrainSlots.UnlockedClearLosesMarker`, `DrainSlots.FailedMarkerForgetsADrain`. Exactly: `DrainSlots.BookkeepingKeptExactly`.
- `InvalidateHostMounts` makes an old table look younger and does not cancel a read in flight. Cases: `MountCache.InvalidationRejuvenatesATable`, `MountCache.ReadInFlightSurvivesInvalidation`. Exactly: `MountCache.TrustedExactly`. Its comment says it drops the cached table; the code keeps serving it. A read that fails in time is answered "unknown" beside a young table (`MountCache.FailedReadHidesAYoungTable`).
- A volume ID that itself ends like a generation name collides with another volume. Case: `VfsNames.TwoVolumesOneName`. Exactly: `VfsNames.NamesCollideExactly`.

## Model

| member | source | states |
|---|---|---|
| `VfsNames.AtoiDecimal` | pkg/rclone/syncmanager.go:60-85 | parsing a printed generation gives it back exactly when it fits in an int |
| `VfsNames.AtoiSigned` | pkg/rclone/syncmanager.go:60-85 | a signed decimal parses to its value exactly when that fits in an int |
| `VfsNames.AtoiRefusesOtherText` | pkg/rclone/syncmanager.go:60-85 | any other character makes it unparseable |
| `VfsNames.StripsExactlySuffixes` | pkg/rclone/syncmanager.go:59-69 | volumeIDOfVFSName changes a name if and only if it ends in ".g" and a number with something in front |
| `VfsNames.GenerationRoundTrip` | pkg/rclone/syncmanager.go:71-85 | generationOfVFSName inverts vfsNamesFor for every volume ID and generation |
| `VfsNames.GenerationReadExactly` | pkg/rclone/syncmanager.go:71-85 | it reads a positive generation exactly from the volume's own name, ".g" and that number |
| `VfsNames.VolumeIdRoundTrip` | pkg/rclone/syncmanager.go:48-69 | volumeIDOfVFSName inverts it exactly when the ID is non-empty, and at generation 0 carries no suffix of its own |
| `VfsNames.NamesCollideExactly` | pkg/rclone/syncmanager.go:48-57 | two pairs share a name only if equal, or one is generation 0 of a volume called like the other's name |
| `VfsNames.TwoVolumesOneName` | pkg/rclone/syncmanager.go:48-57 | generation 1 of volume a and generation 0 of volume a.g1 have one name |
| `VfsNames.NamesInjective` | pkg/rclone/syncmanager.go:48-57 | across plain volume IDs the name determines volume and generation |
| `VfsNames.S3NamesFollow` | pkg/rclone/syncmanager.go:48-57 | two S3 config names are equal exactly when the VFS names are |
| `VfsListing.RegisteredVFSNames` | pkg/rclone/syncmanager.go:273-285 | each colon-free name is counted once for every entry that starts with it and a colon; other entries count for nothing |
| `VfsListing.CountsBack` | pkg/rclone/syncmanager.go:258-286 | counting what rclone prints, "name:" for one and "name:[i]" for several, gives back how many VFSes each name has |
| `VfsRegistry.Rclone.ShutdownSessions` | pkg/rclone/session.go:67-104 | each recorded session of the volume that is listed, and each the caller knows, is gone unless its unmount ran out of time, or has lost its VFS if that was half done; every other record stays; each name loses exactly the VFSes those sessions still had; the count is theirs and the ones' that ran out of time |
| `VfsRegistry.Rclone.UnmountSession` | pkg/rclone/session.go:106-123 | drops the record and its VFS and reports whether there was one; a call that fails after the shutdown leaves the record, one that runs out of time leaves both, and either is reported as found |
| `VfsRegistry.MountManager.constructor` | pkg/rclone/syncmanager.go:168-186 | a new manager resumes on the generation the map names, 0 without an entry |
| `VfsRegistry.MountManager.BumpGeneration` | pkg/rclone/syncmanager.go:252-256 | the three names are those of the next generation, spelled out |
| `VfsRegistry.MountManager.EnsureExclusiveVFSName` | pkg/rclone/syncmanager.go:193-250 | at most 16 bumps; never succeeds on a name seen taken; refuses only after 16 with the name still taken; a name held only by sessions of its own that can be ended is freed and kept; without an answer takes one fresh generation and then goes blind; with nothing to shut down, picks the first free of 17 names and refuses only if there is none |
| `VfsRegistry.MountManager.EndOldSessions` | pkg/rclone/syncmanager.go:222-231 | ends the volume's sessions as far as rclone answers; reports the name free only when it then is, or cannot be checked, and does so when only its own sessions held it |
| `VfsRegistry.MountManager.OneTurn` | pkg/rclone/syncmanager.go:193-250 | one turn of the loop takes the name, refuses or bumps, touching no VFS of another volume |
| `VfsRegistry.CarefulStep` | pkg/rclone/syncmanager.go:312-424 | names settled across all volumes stay distinct and unregistered until their mount registers them |
| `VfsRegistry.AtMostOneVfsPerName` | pkg/rclone/syncmanager.go:193-250 | in every run with vfs/list answering and no volume mounting over its own unfinished mount, no fs name ever has two VFSes, late registrations included |
| `VfsRegistry.SettleForMount` | pkg/rclone/syncmanager.go:193-250 | a successful call with vfs/list answering and no outstanding mount of the volume is such a careful settling, whatever was shut down meanwhile |
| `VfsRegistry.LateRegistrationGivesTwo` | pkg/rclone/syncmanager.go:403-424 | settling a name again while the first mount is outstanding, with vfs/list free both times, ends with two VFSes under it |
| `VfsRegistry.SettlingIsSafeExactly` | pkg/rclone/syncmanager.go:403-424 | a settled name keeps all continuations unique if and only if it was free and no outstanding mount had settled it |
| `CacheDirs.ValidateVFSCache` | pkg/rclone/cachecheck.go:32-60 | exactly the sound items and those whose metadata could not be moved stay, unchanged; exactly the writes of corrupt items that are dirty or unreadable, and whose data could be moved, join the quarantine |
| `CacheDirs.ValidationSparesDirtyExactly` | pkg/rclone/cachecheck.go:87-120 | every dirty item is kept or all its writes are in quarantine, if and only if no corrupt one loses its metadata while its data stays behind; what stays is unchanged and sound, or stuck |
| `NodeCache.StepKeepsDirty` | pkg/rclone/syncmanager.go:312-468 | under the invariant no mount, unmount, sweep, eviction, corruption or crash step creates a dirty item, and only validation takes one away, into quarantine |
| `NodeCache.StepKeepsInv` | pkg/rclone/syncmanager.go:565-621 | in every interleaving without a race: from the directory check to the reclaim or report the generation stays clean and out of consumers' reach; dirty files stay open from an eviction's probe to its listing and are spared after it; a generation under sweep stays clean and unreachable |
| `NodeCache.ReclaimKeepsDirty` | pkg/rclone/syncmanager.go:600-615 | reclaiming after the check destroys no dirty item |
| `NodeCache.SweepKeepsDirty` | pkg/rclone/vfscache.go:547-588 | under the invariant the removal after a sweep's check destroys no dirty item |
| `NodeCache.EvictKeepsDirty` | pkg/rclone/syncmanager.go:1244-1262 | under the invariant a removal after the listing destroys no dirty item |
| `NodeCache.StepsOfUnmount` | pkg/rclone/syncmanager.go:581-607 | the unmount steps compose: drained exactly when the queue was confirmed and the walk after shutdown found nothing dirty, whichever VFSes outlive the shutdown |
| `NodeCache.StepsOfReclaim` | pkg/rclone/syncmanager.go:1107-1131 | then the directory and the map entry are gone and no other generation is touched |
| `NodeCache.StepsOfValidation` | pkg/rclone/cachecheck.go:32-60 | uninterrupted, checking and then moving the items is the validation of `CacheDirs.ValidateVFSCache` |
| `NodeCache.OrderlyStep` | pkg/rclone/syncmanager.go:425-453 | in orderly runs dirty data and reachable VFSes are only in the generation last mounted, at every step, whatever becomes of the name map |
| `NodeCache.MapKeptExactly` | pkg/rclone/vfscache.go:452-506 | a step keeps the map leading to the generation last mounted if and only if it is not a needed save that fails, another volume's save that drops the entry, a crash in a rewrite, or a removal on behalf of another generation |
| `Cluster.WritesAreConserved` | pkg/rclone/syncmanager.go:565-621 | over every quiet run of any number of nodes, with crashes and forced unstages, each accepted write reached S3, is in a cache generation, or was quarantined before S3 had it and still is |
| `Cluster.StrandedIsQuarantined` | pkg/rclone/cachecheck.go:108-120 | over every run whatsoever, a write set aside while S3 lacked it stays in some node's quarantine |
| `Cluster.HandoverIsSafe` | pkg/driver/node.go:416-450 | over every orderly run, consumers of the node that stages the volume see every accepted write except those quarantined while S3 lacked them, and no other node holds a write S3 lacks |
| `Cluster.RestartResumesTheWrittenCache` | pkg/rclone/syncmanager.go:168-186 | over every orderly run in which no map was made to forget, what consumers can write to or have written is in the generation last mounted; a crash resumes on it if and only if the map is neither being rewritten at the crash nor unreadable after it, or the generation is 0 |
| `Cluster.ASlipStrandsTheWrittenCache` | pkg/rclone/vfscache.go:470-492 | after any one step from there, a restart resumes on it if and only if that step did not make the map forget and left it whole |
| `Cluster.OrderlyRunsLoseNothingFromS3` | pkg/rclone/syncmanager.go:600-615 | over every orderly run each accepted write is in its S3 object now, in a cache, or was quarantined while S3 lacked it: no upload replaces another's write |
| `Hazards.DirtyGenerationBehindIsUnsafe` | pkg/driver/node_s3.go:435-453 | from any state with a clean mounted generation and a write only in another one, an unforced run without races goes on to stage the volume elsewhere without it |
| `Hazards.StaleUploadIsPossible` | pkg/rclone/syncmanager.go:243-248 | from any state with a dirty file in one generation and another one reachable, some continuation uploads a write to that file and then loses it to the first one's late upload |
| `Hazards.StaleUploadReplacesANewerWrite` | pkg/rclone/syncmanager.go:243-248 | a run in which an abandoned generation's upload replaces a newer write |
| `Settling.SettlingAGenerationIsSafeExactly` | pkg/rclone/syncmanager.go:193-250 | in orderly runs, every continuation of a mount that settles on a generation keeps all writes in S3 or a cache and visible to consumers, here and on the next node, if and only if no other generation is dirty or reachable and no manager of another one is registered |
| `Settling.AnOldManagerIsEnough` | pkg/rclone/syncmanager.go:438-451 | a reached state in which only an old manager makes settling on another generation unsafe |
| `Settling.AnOldVfsIsEnough` | pkg/rclone/syncmanager.go:206-219 | a reached state in which only a VFS still served makes it unsafe |
| `Hazards.AbandonedGenerationHidesWrites` | pkg/driver/node_s3.go:435-453 | a run in which an unforced unstage succeeds and the next node misses a write |
| `Hazards.FastUnstageIsSafeExactly` | pkg/driver/node_s3.go:435-453 | in every quiet run, the node is clean after the fast path's check if and only if its other generations are |
| `Races.WriteDuringEvictionIsSafeExactly` | pkg/rclone/syncmanager.go:1232-1262 | no later removal of the pass destroys a dirty item after a write if and only if the pass did not find that file there and closed |
| `Races.EvictionTakesALaterWrite` | pkg/rclone/syncmanager.go:1180-1262 | a run from the start in which a write after the listing is removed with its file |
| `Races.CloseBeforeListingIsSafeExactly` | pkg/rclone/syncmanager.go:1185-1232 | between probe and listing a close, a dying VFS or an unmount leaves the pass harmless if and only if it closes no dirty file the pass can come to remove |
| `Races.EvictionTakesAClosedFile` | pkg/rclone/syncmanager.go:1180-1262 | a run from the start in which a dirty file closed between probe and listing is removed |
| `Races.SweepIsSafeExactly` | pkg/rclone/vfscache.go:564-586 | what consumers write between a sweep's check and its removal survives if and only if they cannot reach the generation |
| `Races.ExposingDuringASweepIsSafeExactly` | pkg/rclone/vfscache.go:508-533 | a mount exposed during a sweep keeps its consumers' writes if and only if the sweep is at another generation |
| `Races.SweepTakesALaterWrite` | pkg/rclone/vfscache.go:564-586 | a run from the start in which a second mount leaves the first generation reachable and a sweep takes a write to it |
| `Races.ValidationIsSafeExactly` | pkg/rclone/cachecheck.go:36-59 | what consumers write between the check of an item and its removal survives if and only if they cannot reach the generation or it has no item to remove |
| `Races.ValidationTakesALaterWrite` | pkg/rclone/cachecheck.go:36-59 | a run from the start in which a corrupt clean item is written to and then removed |
| `Races.HalfMovedItemIsLost` | pkg/rclone/cachecheck.go:108-120 | a run from the start in which a corrupt dirty item's metadata moves, its data does not, and the write is lost |
| `Verdicts.ReclaimIsSafeExactly` | pkg/rclone/syncmanager.go:600-610 | acting at once on a walk that says clean destroys no dirty item, whatever the node, if and only if evidence comes before any vanished directory |
| `Verdicts.WriteBeforeReclaimIsSafeExactly` | pkg/rclone/syncmanager.go:589-614 | after a steady walk that says clean, whatever consumers write before the reclaim survives if and only if the shutdown has left them no VFS of the generation |
| `Verdicts.UnmountTakesALaterWrite` | pkg/rclone/session.go:106-123 | a run from the start in which the unmount inside a remount outlives its RPC and the reclaim takes a write |
| `Verdicts.CleanReportIsSafeExactly` | pkg/driver/node_s3.go:423-433 | without a manager, "nothing unuploaded" stays true whatever consumers write next if and only if they reach no VFS |
| `Verdicts.CleanReportHidesALaterWrite` | pkg/driver/node_s3.go:423-433 | a run from the start in which they do and the next node misses a write |
| `Verdicts.WalkMissesAWrite` | pkg/rclone/vfscache.go:656-679 | a run from the start in which an unmount reclaims a cache whose dirty item a vanished directory hid |
| `Hazards.TornMapStrandsWrites` | pkg/rclone/vfscache.go:470-492 | an orderly run whose crash during a map rewrite resumes on generation 0 while generation 1 is dirty |
| `Hazards.FailedSaveStrandsWrites` | pkg/rclone/vfscache.go:472-492 | an orderly run whose save of the name failed resumes on generation 0 while generation 1 is dirty |
| `Hazards.LostEntryStrandsWrites` | pkg/rclone/vfscache.go:484-492 | and one in which another volume's save dropped the entry |
| `Hazards.UnreadableMapStrandsWrites` | pkg/rclone/vfscache.go:452-468 | and one after which the map cannot be read |
| `Unstage.WaitForPendingUploads` | pkg/rclone/syncmanager.go:667-767 | true if and only if before the deadline a poll looked empty with the mount still there and all earlier polls were inconclusive |
| `Unstage.NodeServer.IsUploadQueueEmpty` | pkg/rclone/syncmanager.go:769-808 | an unobservable queue is decided by a walk of the cache metadata or answered "not empty" |
| `Unstage.NodeServer.Unmount` | pkg/rclone/syncmanager.go:565-632 | drained if and only if the queue was confirmed empty and the walk found nothing dirty, and only then are directory and map entry removed, as far as that works; it means a clean directory whenever the walk met its evidence in time and no VFS wrote later; it has no error |
| `Unstage.NodeServer.ForceCleanup` | pkg/driver/node_s3.go:518-546 | a forced unstage drops the manager and really runs the short unmount: directory and map entry go exactly when the queue was confirmed and the walk found nothing |
| `Unstage.NodeServer.ResumeStrandedDrain` | pkg/driver/node_s3.go:548-567 | claims the volume's slot exactly when it has a path, a readable PV and the slot is free |
| `Unstage.NodeServer.StrandedDrain` | pkg/driver/node_s3.go:569-609 | its goroutine mounts, waits up to six hours, unmounts and releases the slot with the unmount's verdict, touching no other cache; without a mount it releases the slot as undrained |
| `Unstage.NodeServer.CleanupS3Sync` | pkg/driver/node_s3.go:396-485 | branch by branch what becomes of verdict, manager, directories, map and drain slot: forced, the short unmount runs and success is reported; a running drain refuses untouched; without a manager the walks of every generation decide; a queue that looks drained is unmounted in short, with that verdict; otherwise a background drain starts. An unforced success means clean caches when those walks are honest, a refusal keeps every directory, no other volume is touched |
| `Unstage.NodeServer.BackgroundDrain` | pkg/driver/node_s3.go:460-482 | the long unmount runs, the manager goes and the slot is released with the true verdict |
| `Unstage.MissingSectionIsCaughtOnDisk` | pkg/rclone/syncmanager.go:742-757 | a reply without diskCache confirms the queue, and the directory check still refuses, exactly when its walk meets the evidence before any vanished directory |
| `Unstage.OtherVolumesKeepTheirCaches` | pkg/driver/node_s3.go:396-485 | a cleanup reaches no cache of another plain volume |
| `DrainSlots.SyncManager.constructor` | pkg/driver/node_s3.go:70-95 | a new process holds no slot and has every marker pending, or none when they cannot be listed |
| `DrainSlots.SyncManager.StartBackgroundDrain` | pkg/driver/node_s3.go:97-109 | claims the slot exactly when it was free, with its marker if that can be written |
| `DrainSlots.SyncManager.FinishBackgroundDrain` | pkg/driver/node_s3.go:124-143 | frees the slot; the marker goes only on a completed drain, if it can be removed |
| `DrainSlots.SyncManager.EnterSetup` | pkg/driver/node_s3.go:215-237 | refuses while a drain runs on; otherwise takes the pending drain over and keeps markers equal to slots and pending entries, short of one that cannot be removed |
| `DrainSlots.BookkeepingKeptExactly` | pkg/driver/node_s3.go:82-162 | every serialised continuation of an event has one marker for each unfinished drain and one holder for each slot, if and only if the event is serialised with the volume's other work and its marker operations and listing succeed where they matter |
| `DrainSlots.MarkersGoOnlyWhenSafe` | pkg/driver/node_s3.go:124-143 | a marker disappears only on a confirmed drain or a takeover with the slot free |
| `DrainSlots.MarkersMatchUnfinishedDrains` | pkg/driver/node_s3.go:82-162 | over every such run with crashes, markers name the unfinished drains, slots have one holder, and a crash leaves every one pending if the markers can be listed |
| `DrainSlots.NoDrainIsForgotten` | pkg/rclone/vfscache.go:410-430 | when only removals of markers fail, no unfinished drain is ever without one |
| `DrainSlots.IgnoredClaimGivesTwoHolders` | pkg/driver/node_s3.go:455-482 | an ignored failed claim gives two holders and a lost marker |
| `DrainSlots.UnlockedClearLosesMarker` | pkg/driver/node_s3.go:227-237 | a drain started inside a takeover loses its marker |
| `DrainSlots.FailedMarkerForgetsADrain` | pkg/rclone/vfscache.go:410-450 | a marker that cannot be written, or markers that cannot be listed, forget a drain over a crash |
| `DirtyScan.DirtyReportedExactly` | pkg/rclone/vfscache.go:656-679 | dirty is reported if and only if evidence comes before any vanished directory in walk order |
| `DirtyScan.WalkIsHonestExactly` | pkg/rclone/vfscache.go:656-679 | a walk that says clean can be believed of every directory it shows if and only if evidence comes first |
| `DirtyScan.VanishedFolderHidesDirt` | pkg/rclone/vfscache.go:674-678 | a vanished directory hides a dirty item behind it |
| `DirtyScan.HasUnuploadedDataAt` | pkg/rclone/vfscache.go:632-654 | true if and only if some generation of the volume is dirty or the directory cannot be listed |
| `DirtyScan.VolumesWithUnuploadedDataAt` | pkg/rclone/vfscache.go:607-630 | sorted, duplicate-free, exactly the volumes with a dirty generation |
| `DirtyScan.LessExactly` | pkg/rclone/vfscache.go:607-630 | the order is the lexicographic one: after a common prefix the first ends or has the smaller character |
| `DirtyScan.ScanAgreesWithQuery` | pkg/rclone/vfscache.go:607-654 | scan and query agree on a volume if and only if the metadata directory could be listed |
| `DirtyScan.CheckCoversEveryGeneration` | pkg/rclone/vfscache.go:645-652 | a dirty directory of any generation makes the check true |
| `DirtyScan.CleanInEveryGeneration` | pkg/rclone/vfscache.go:632-654 | "nothing unuploaded" means every generation of a plain volume is clean, if the walks met their evidence in time |
| `OrphanSweep.CleanupOrphanedVFSCacheDirs` | pkg/rclone/vfscache.go:508-533 | exactly which directories and map entries a sweep leaves |
| `OrphanSweep.SweepUnmapped` | pkg/rclone/vfscache.go:547-588 | an unmapped directory stays if and only if it is a live volume's bare name or its walk finds it dirty |
| `OrphanSweep.ActiveGenerationSurvivesExactly` | pkg/rclone/vfscache.go:508-588 | while the PV exists a generation is swept if and only if it is not 0, the map read does not name it and its walk says clean |
| `OrphanSweep.ActiveVolumesKeepTheirWrites` | pkg/rclone/vfscache.go:508-588 | so no dirty generation is swept whose walk meets its evidence before any vanished directory |
| `OrphanSweep.VanishedDirectoryLosesAGeneration` | pkg/rclone/vfscache.go:674-678 | and one whose walk does not, can be |
| `OrphanSweep.DeletedVolumeLosesTheMappedCache` | pkg/rclone/vfscache.go:517-526 | without a PV a directory survives if and only if its walk finds it dirty and it is not the mapped one |
| `Eviction.SortByAge` | pkg/rclone/syncmanager.go:1239-1242 | a permutation, oldest first |
| `Eviction.RemoveOldest` | pkg/rclone/syncmanager.go:1244-1262 | removals only over the limit and of files that may go, oldest first, until under the limit or out of candidates; the total tracks what is left |
| `Eviction.EvictCacheIfNeeded` | pkg/rclone/syncmanager.go:1180-1271 | a pass that may run ends within the volume's limit, and within 70% of what there was on a disk nearly full, or with nothing left that may go; it removes oldest first, only files that may go and only while above one of the two; within its limit and with room on the disk it removes nothing |
| `Eviction.PassSparesDirtyFilesExactly` | pkg/rclone/syncmanager.go:1181-1262 | no pass removes a file that is dirty by its end if and only if no file dirty at the probe or written since was closed by the listing, and none closed there is written to after it |
| `Eviction.GetsUnderTheLimit` | pkg/rclone/syncmanager.go:1177-1179 | the pass ends under the limit whenever the files that may not go fit |
| `RepairGate.NodeServer.ReconcileAllowed` | pkg/driver/node_s3.go:1107-1128 | allowed exactly for the first two attempts and then after 2, 4, 8 and always 15 minutes, counting the attempt only then |
| `RepairGate.NodeServer.ReconcileSucceeded` | pkg/driver/node_s3.go:1130-1133 | clears one volume's backoff |
| `RepairGate.NodeServer.ConsumerRestartAllowed` | pkg/driver/node_s3.go:1139-1160 | allowed exactly when registered and with no restart in the last five minutes, stamping it only then |
| `RepairGate.RepairsAreRateLimited` | pkg/driver/node_s3.go:1091-1128 | any window of w holds at most 5 + w / 15 minutes allowed repairs |
| `RepairGate.RepairAlwaysResumes` | pkg/driver/node_s3.go:1115-1123 | fifteen minutes after the last allowed attempt the next is allowed |
| `RepairGate.RestartsAreApart` | pkg/driver/node_s3.go:1135-1160 | destructive restarts of one volume are at least five minutes apart |
| `RepairGate.RestartsResume` | pkg/driver/node_s3.go:1151-1159 | in every run, a registered call five minutes after all before it is a restart |
| `RepairGate.UnregisteredCallsDelayNothing` | pkg/driver/node_s3.go:1142-1150 | calls while unregistered change no restart time |
| `Sessions.NewSessionDir` | pkg/rclone/session.go:29-52 | ends, also when the clock repeats readings, and returns a path that does not exist and that no session stamped earlier was given |
| `Sessions.StartSession` | pkg/rclone/session.go:29-52 | so started, a session has its mountpoint to itself |
| `Sessions.SessionsOf` | pkg/rclone/session.go:54-65 | sorted, exactly the mount points under the volume's prefix, each as often as listed |
| `Sessions.PlacesArePaths` | pkg/rclone/session.go:54-65 | session paths are equal only for equal sessions, and the prefix test asks for the volume |
| `Sessions.SessionsAreIsolated` | pkg/rclone/session.go:18-21 | in every run with private paths, a session nothing was aimed at keeps its mount and record |
| `Sessions.AimedOnlyAtItsOwn` | pkg/rclone/session.go:87-153 | teardown, shutdown and sweep reach only their own session or volume (the sweep no recorded one) and no staging bind |
| `Sessions.StagingBindSurvives` | pkg/rclone/session.go:18-21 | a staging bind changes only by a bind or unbind at its own path |
| `Sessions.TeardownIsHarmlessExactly` | pkg/rclone/session.go:106-123 | a teardown spares another session if and only if their mountpoints differ |
| `Sessions.SharedPathBreaksIsolation` | pkg/rclone/session.go:18-21 | on one shared path a late teardown takes the successor's mount and record |
| `MountInfo.EscapesRoundTrip` | pkg/rclone/mounts.go:225-233 | decoding undoes the kernel's escapes for every path |
| `MountInfo.LinesExactly` | pkg/rclone/mounts.go:187-192 | the lines hold no newline and joined by newlines give the text back |
| `MountInfo.FieldsExactly` | pkg/rclone/mounts.go:193-196 | behind leading space the longest word is the first field, then come those of the rest |
| `MountInfo.ParseMountStacks` | pkg/rclone/mounts.go:187-208 | every path's mounts in table order, and no other path |
| `MountInfo.FlattenMountStacks` | pkg/rclone/mounts.go:215-223 | the topmost filesystem type of each path |
| `MountInfo.LineRoundTrip` | pkg/rclone/mounts.go:193-206 | a printed mount parses to its path, device and type |
| `MountInfo.TableRoundTrip` | pkg/rclone/mounts.go:187-208 | a printed table parses to all its mounts in order |
| `MountInfo.ParsePrinted` | pkg/rclone/mounts.go:187-208 | end to end, with the stack depths adding up to the number of mounts |
| `MountCache.MountTable.Query` | pkg/rclone/mounts.go:107-123 | serves the table or becomes the one reader |
| `MountCache.MountTable.ServeCached` | pkg/rclone/mounts.go:152-165 | the table while its recorded time is under 90 seconds old |
| `MountCache.MountTable.Complete` | pkg/rclone/mounts.go:126-137 | installs a whole parsed read and its flat view together |
| `MountCache.MountTable.Invalidate` | pkg/rclone/mounts.go:95-105 | re-stamps the table as just past the TTL |
| `MountCache.OneReadInFlightAndViewsAgree` | pkg/rclone/mounts.go:46-55 | in every interleaving at most one read is in flight and the flat view is the top of the stacks |
| `MountCache.TrustedExactly` | pkg/rclone/mounts.go:107-165 | an answer from the cache is trusted if and only if the last whole read is under 90 seconds old, or was invalidated under 85 seconds ago; one from a query's own read if and only if that read was whole |
| `MountCache.InvalidationRejuvenatesATable` | pkg/rclone/mounts.go:97-105 | a table 160 seconds old is still trusted after an invalidation |
| `MountCache.ReadInFlightSurvivesInvalidation` | pkg/rclone/mounts.go:95-105 | a read begun before an invalidation is served as fresh after it |
| `MountCache.FailedReadHidesAYoungTable` | pkg/rclone/mounts.go:140-142 | a read that fails in time answers "unknown" beside a table that would still be trusted |
| `MountStacks.Host.UnmountHostStack` | pkg/driver/node_s3.go:1491-1517 | success is a cleared path; nine mounts are cleared, ten or more report failure |
| `MountStacks.Host.EnsureStagingServing` | pkg/driver/node_s3.go:1196-1208 | success is a filesystem type with "fuse" in it on top at the staging path and a look that worked; exactly when it is there at the first look, or at the second after its session, if any, was bound back; a bind that fails leaves the path unbound |
| `MountStacks.Host.RebindConsumerMount` | pkg/driver/node_s3.go:1162-1194 | a re-bound consumer has exactly one mount, the staging path's, of a type with "fuse" in it; a failure stacks nothing |
| `ConsumerBinds.CutExactly` | pkg/driver/node_s3.go:1243-1254 | the three cuts accept exactly the publish paths of slash-free pod UIDs and PV names and give those back |
| `ConsumerBinds.ParseConsumerBinds` | pkg/driver/node_s3.go:1230-1260 | exactly the FUSE-topped publish paths, each once, with depth and device |
| `ConsumerBinds.LiveMountDevices` | pkg/driver/node_s3.go:1262-1276 | the devices topmost at some path outside subPath mounts |
| `ConsumerBinds.StrandedInMountInfo` | pkg/driver/node_s3.go:1301-1314 | rclone's devices in the text that are not live |
| `ConsumerBinds.StrandedDevices` | pkg/driver/node_s3.go:1278-1314 | from both texts, a device is stranded if and only if rclone serves it and the host resolves it nowhere |
| `LogQueue.Writer.Write` | pkg/asynclog/asynclog.go:78-88 | queues the line, hands it over or counts it dropped |
| `LogQueue.Writer.DrainOne` | pkg/asynclog/asynclog.go:49-64 | the oldest line out, then every drop so far reported and the counter back at 0 |
| `LogQueue.LinesAreConserved` | pkg/asynclog/asynclog.go:49-88 | in every interleaving, output, in-flight and queued lines are the kept lines in call order |
| `LogQueue.EveryLineIsAccountedFor` | pkg/asynclog/asynclog.go:49-88 | written equals handed out plus in flight plus queued plus counted and reported drops |
| `LogQueue.ReportNamesEveryDrop` | pkg/asynclog/asynclog.go:59-61 | in every interleaving, after a report the drops reported are exactly the lines written and not kept |

## Left out

- Cluster.HandoverIsSafe: stated for orderly runs; the condition on settling a generation is exact (`Settling.SettlingAGenerationIsSafeExactly`), the races have a case and an exact condition each, and a forced unstage gives writes up by design.
- Cluster.WritesAreConserved: stated for quiet runs, each race having a case and an exact condition; "reached S3" means an upload carried the write, and a later upload of a stale abandoned generation can still replace that object, which Cluster.OrderlyRunsLoseNothingFromS3 excludes for orderly runs only.
- NodeCache.EvictKeepsDirty: an eviction removes the data file and leaves its metadata; here the whole item goes.
- MountStacks.Host.EnsureStagingServing: unbinding the staging path before the session is bound back is taken to work.
- Unstage.NodeServer.Unmount: what the mounted cache holds when it is walked and when it is reclaimed are parameters, so uploads and writes in between appear as steps only in `NodeCache` and `Cluster`; a directory is removed whole or not at all.
- MountStacks.Host.RebindConsumerMount: takes a trusted table as exact and assumes nobody mounts meanwhile.
- Eviction.EvictCacheIfNeeded: sizes are unbounded integers, and telling rclone to forget the removed paths is not modelled.
- rclone, librclone and the S3 and crypt backends are reduced to a VFS registry, mount records, an upload step and a set of objects.
- Kernel and process calls (nsenter, umount, FUSE abort) are steps that work or do not.
- Kubernetes lookups, events, pod deletion, fsGroup and secrets appear only as answers a decision needs.
- Local LUKS staging and expansion, registration health, the watchdogs and the identity probe are not part of this model.
- Mount propagation and the recursive removal of a staging directory (guarded by a table that reads "unknown" as "not mounted") are not part of this model.
- Parsing of durations and sizes, the directory-cache warmer and log redaction would only add easy members.
