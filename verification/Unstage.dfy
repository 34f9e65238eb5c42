/** cleanupS3Sync, the unmount it calls and the verdict NodeUnstageVolume gives
    (pkg/driver/node_s3.go, pkg/rclone/syncmanager.go).

    What the environment does during a call is a parameter: the answers of the
    vfs/stats RPC, whether the staging path is a mount point, whether the PV can be
    read and carries the force annotation, what each walk of cache metadata meets,
    what the mounted generation's cache holds when it is walked and when it is
    reclaimed, and which file operations fail. */
module Unstage {
  import opened Basics
  import opened VfsNames
  import opened CacheDirs
  import DrainSlots
  import DirtyScan

  /** A vfs/stats reply, as far as the driver reads it. */
  datatype StatsReply =
    | NoVfsFound
    | AmbiguousVfs
    | OtherFailure
    | NoDiskCache                              // an answer without the diskCache section
    | Queue(inProgress: nat, queued: nat)

  /** One turn of the drain loop: when it happens, whether the FUSE mount has
      disappeared by then, and what vfs/stats answers. */
  datatype Poll = Poll(at: nat, gone: bool, reply: StatsReply)

  predicate LooksEmpty(reply: StatsReply) {
    reply.NoDiskCache? || reply == Queue(0, 0)
  }

  /** A turn after which the loop polls again. */
  predicate Inconclusive(p: Poll) {
    !p.gone && !p.reply.NoVfsFound? && !p.reply.AmbiguousVfs? && !LooksEmpty(p.reply)
  }

  /** Before the deadline, some poll with the mount still there looked empty and
      every earlier one was inconclusive. */
  ghost predicate Confirmed(budget: nat, polls: seq<Poll>) {
    exists k :: 0 <= k < |polls| && !polls[k].gone && LooksEmpty(polls[k].reply)
                && (forall j :: 0 <= j < k ==> Inconclusive(polls[j]))
                && (forall j :: 0 <= j <= k ==> polls[j].at < budget)
  }

  /** waitForPendingUploads. */
  method WaitForPendingUploads(budget: nat, polls: seq<Poll>) returns (confirmed: bool)
    ensures confirmed <==> Confirmed(budget, polls)
  {
    if budget <= 0 {
      return false;
    }
    var k := 0;
    while k < |polls| && polls[k].at < budget
      invariant 0 <= k <= |polls|
      invariant forall j :: 0 <= j < k ==> Inconclusive(polls[j]) && polls[j].at < budget
    {
      if polls[k].gone {
        return false;
      }
      match polls[k].reply {
        case NoVfsFound => return false;
        case AmbiguousVfs => return false;
        case OtherFailure =>
        case NoDiskCache => return true;
        case Queue(inProgress, queued) =>
          if inProgress == 0 && queued == 0 {
            return true;
          }
      }
      k := k + 1;
    }
    return false;
  }

  const SHORT_DRAIN_WAIT: nat := 60
  const MAX_DRAIN_WAIT: nat := 6 * 3600

  datatype Manager = Manager(generation: nat, mounted: bool)

  datatype Env = Env(
    force: bool,                   // the force-unstage annotation is set
    pvReadable: bool,              // getS3VolumeContext finds the PV
    gate: DirtyScan.Listing,       // what HasUnuploadedData meets before the force check
    listing: DirtyScan.Listing,    // and when there is no manager
    probeMounted: bool,            // the staging path is a mount point at the queue probe
    probe: StatsReply,             // the probe's single poll
    probeWalk: DirtyScan.Tree,     // and its walk of the mounted generation
    isMountPoint: bool,            // the staging path is a mount point at the unmount
    polls: seq<Poll>,              // the drain loop's polls
    walk: DirtyScan.Tree,          // the unmount's walk of the mounted generation
    walked: CacheDir,              // that generation when it is walked
    settled: CacheDir,             // and when it is reclaimed
    removed: bool,                 // the directories can be removed
    save: Save,                    // what becomes of the name map
    marked: bool)                  // the drain marker can be written

  datatype Verdict = Success | UnuploadedData

  /** The unmount's check sees the truth: its walk meets what there is before any
      vanished directory, and no VFS writes to the cache afterwards. */
  ghost predicate Honest(env: Env) {
    DirtyScan.Shows(env.walk, env.walked) && DirtyScan.EvidenceFirst(env.walk) && env.settled == env.walked
  }

  lemma HonestWalk(env: Env)
    requires Honest(env) && !DirtyScan.HasDirtyItems(env.walk)
    ensures !DirLooksDirty(env.settled)
  {
    DirtyScan.DirtyReportedExactly(env.walk);
  }

  /** What RemoveVFSName leaves of the map. */
  ghost predicate NameRemoved(names0: map<string, string>, names: map<string, string>, volumeID: string, save: Save) {
    if volumeID !in names0 || save.Untouched? then names == names0
    else if save.Saved? then names == names0 - {volumeID}
    else names == map[]
  }

  /** What a whole unmount of this manager, waiting at most `budget` seconds, leaves of
      directories and map. With nothing mounted it only looks; otherwise the cache is
      what it was when the sessions had ended, unless the queue was confirmed empty and
      the walk found nothing: then directory and map entry go. */
  ghost predicate UnmountRan(mm: Manager, volumeID: string, budget: nat, env: Env,
                             dirs0: map<string, CacheDir>, names0: map<string, string>,
                             dirs: map<string, CacheDir>, names: map<string, string>)
  {
    var name := VfsName(volumeID, mm.generation);
    if !mm.mounted && !env.isMountPoint then dirs == dirs0 && names == names0
    else if Confirmed(budget, env.polls) && !DirtyScan.HasDirtyItems(env.walk) then
      && dirs == (if env.removed then dirs0 - {name} else dirs0[name := env.settled])
      && NameRemoved(names0, names, volumeID, env.save)
    else dirs == dirs0[name := env.settled] && names == names0
  }

  /** The queue probe's answer, reply by reply. */
  ghost predicate LooksDrained(env: Env) {
    if env.probeMounted && !env.probe.NoVfsFound? && !env.probe.AmbiguousVfs? then env.probe == Queue(0, 0)
    else !DirtyScan.HasDirtyItems(env.probeWalk)
  }

  class NodeServer {
    const sync: DrainSlots.SyncManager
    var managers: map<string, Manager>
    var dirs: map<string, CacheDir>       // disk: cache directories by VFS name
    var names: map<string, string>        // disk: the persisted name map

    constructor (sync: DrainSlots.SyncManager, dirs: map<string, CacheDir>, names: map<string, string>)
      ensures this.sync == sync && managers == map[] && this.dirs == dirs && this.names == names
    {
      this.sync, this.managers, this.dirs, this.names := sync, map[], dirs, names;
    }

    function ManagerName(volumeID: string): string
      requires volumeID in managers
      reads this
    {
      VfsName(volumeID, managers[volumeID].generation)
    }

    /** One poll of the queue; whatever makes it unobservable falls back to the
        cache directory, or to "not empty". */
    method IsUploadQueueEmpty(volumeID: string, env: Env) returns (empty: bool)
      requires volumeID in managers
      ensures empty ==> (env.probeMounted && env.probe == Queue(0, 0)) || !DirtyScan.HasDirtyItems(env.probeWalk)
      ensures !env.probeMounted ==> empty == !DirtyScan.HasDirtyItems(env.probeWalk)
      ensures env.probeMounted && env.probe.Queue? ==> empty == (env.probe == Queue(0, 0))
      ensures env.probeMounted && (env.probe.NoVfsFound? || env.probe.AmbiguousVfs?) ==>
                empty == !DirtyScan.HasDirtyItems(env.probeWalk)
      ensures env.probeMounted && (env.probe.OtherFailure? || env.probe.NoDiskCache?) ==> !empty
      ensures empty <==> LooksDrained(env)
    {
      if !env.probeMounted {
        return !DirtyScan.HasDirtyItems(env.probeWalk);
      }
      match env.probe {
        case NoVfsFound => return !DirtyScan.HasDirtyItems(env.probeWalk);
        case AmbiguousVfs => return !DirtyScan.HasDirtyItems(env.probeWalk);
        case OtherFailure => return false;
        case NoDiskCache => return false;
        case Queue(inProgress, queued) => return inProgress == 0 && queued == 0;
      }
    }

    /** RemoveVFSName. */
    method RemoveName(volumeID: string, save: Save)
      modifies this`names
      ensures NameRemoved(old(names), names, volumeID, save)
      ensures save.Saved? ==> names == old(names) - {volumeID}
    {
      if volumeID !in names {
        assert names - {volumeID} == names;
        return;
      }
      match save {
        case Saved => names := names - {volumeID};
        case Untouched =>
        case Emptied => names := map[];
      }
    }

    /** MountManager.unmount. It has no error to return: either the walk finds its
        generation clean and it is reclaimed, or its directory is kept. */
    method Unmount(volumeID: string, budget: nat, env: Env) returns (drained: bool)
      requires volumeID in managers
      modifies this
      ensures managers == old(managers)[volumeID := old(managers)[volumeID].(mounted := false)]
      ensures if old(managers)[volumeID].mounted || env.isMountPoint
              then drained <==> Confirmed(budget, env.polls) && !DirtyScan.HasDirtyItems(env.walk)
              else drained <==> !DirtyScan.HasDirtyItems(env.walk)
      // what a verdict of "drained" means
      ensures drained && Honest(env) ==> !DirLooksDirty(env.settled)
      ensures var name := old(ManagerName(volumeID));
              if old(managers)[volumeID].mounted || env.isMountPoint
              then dirs == if drained && env.removed then old(dirs) - {name} else old(dirs)[name := env.settled]
              else dirs == old(dirs)
      ensures UnmountRan(old(managers)[volumeID], volumeID, budget, env, old(dirs), old(names), dirs, names)
      ensures names != old(names) ==> drained && (old(managers)[volumeID].mounted || env.isMountPoint)
      ensures drained && (old(managers)[volumeID].mounted || env.isMountPoint) && env.save.Saved? ==>
                names == old(names) - {volumeID}
      ensures !env.save.Emptied? ==> names == old(names) || names == old(names) - {volumeID}
    {
      var mm := managers[volumeID];
      var name := ManagerName(volumeID);
      managers := managers[volumeID := mm.(mounted := false)];
      if !mm.mounted && !env.isMountPoint {
        drained := !DirtyScan.HasDirtyItems(env.walk);
      } else {
        drained := WaitForPendingUploads(budget, env.polls);
        if drained && DirtyScan.HasDirtyItems(env.walk) {
          drained := false;
        }
        dirs := dirs[name := env.settled];
        if drained {
          if env.removed {
            dirs := dirs - {name};
          }
          RemoveName(volumeID, env.save);
        }
      }
      if drained && Honest(env) {
        HonestWalk(env);
      }
    }

    method ForceCleanup(volumeID: string, env: Env)
      modifies this
      ensures managers == old(managers) - {volumeID}
      ensures if volumeID in old(managers)
              then UnmountRan(old(managers)[volumeID], volumeID, 60, env, old(dirs), old(names), dirs, names)
              else dirs == old(dirs) && names == old(names)
      ensures OnlyMountedChanges(old(managers), old(dirs), old(names), volumeID, env)
    {
      if volumeID in managers {
        var _ := Unmount(volumeID, SHORT_DRAIN_WAIT, env);
      }
      managers := managers - {volumeID};
    }

    /** resumeStrandedDrain, as far as its caller waits for it: claims the slot for
        the goroutine below. */
    method ResumeStrandedDrain(volumeID: string, stagingPath: string, env: Env) returns (started: bool)
      modifies sync`backgroundDrains, sync.disk
      ensures started <==> stagingPath != "" && env.pvReadable && volumeID !in old(sync.backgroundDrains)
      ensures !started ==> sync.State() == old(sync.State())
      ensures started ==> sync.State() == DrainSlots.Started(old(sync.State()), volumeID, env.marked)
    {
      if stagingPath == "" || !env.pvReadable {
        return false;
      }
      started := sync.StartBackgroundDrain(volumeID, env.marked);
    }

    /** Its goroutine: mounts the volume, on generation `mounted` if that works, then
        drains and unmounts it and releases the slot. `saved` says whether the mount
        could record its name. */
    method StrandedDrain(volumeID: string, mounted: Option<nat>, saved: bool, env: Env) returns (drained: bool)
      modifies this, sync, sync.disk
      ensures sync.State() == DrainSlots.Finished(old(sync.State()), volumeID, drained, env.marked)
      ensures mounted.None? ==> !drained && managers == old(managers) && dirs == old(dirs) && names == old(names)
      ensures mounted.Some? ==> managers == old(managers) - {volumeID}
      ensures mounted.Some? ==>
                (drained <==> Confirmed(21_600, env.polls) && !DirtyScan.HasDirtyItems(env.walk))
      ensures mounted.Some? ==>
                var recorded := if saved then old(names)[volumeID := VfsName(volumeID, mounted.value)] else old(names);
                UnmountRan(Manager(mounted.value, true), volumeID, 21_600, env, old(dirs), recorded, dirs, names)
      ensures drained && Honest(env) ==> !DirLooksDirty(env.settled)
      ensures forall name :: (mounted.Some? ==> name != VfsName(volumeID, mounted.value)) ==>
                (name in dirs <==> name in old(dirs)) && (name in dirs ==> dirs[name] == old(dirs)[name])
    {
      drained := false;
      if mounted.Some? {
        if saved {
          names := names[volumeID := VfsName(volumeID, mounted.value)];
        }
        managers := managers[volumeID := Manager(mounted.value, true)];
        drained := Unmount(volumeID, MAX_DRAIN_WAIT, env);
        managers := managers - {volumeID};
      }
      sync.FinishBackgroundDrain(volumeID, drained, env.marked);
    }

    /** Across a call the only cache directory, map entry or manager that may
        change is the volume's own (short of a map file cut short), and a directory
        goes only when its walk found nothing that looked unuploaded. */
    ghost predicate OnlyMountedChanges(managers0: map<string, Manager>, dirs0: map<string, CacheDir>,
                                       names0: map<string, string>, volumeID: string, env: Env)
      reads this
    {
      && (forall u :: u != volumeID ==>
            (u in managers <==> u in managers0) && (u in managers ==> managers[u] == managers0[u]))
      && (!env.save.Emptied? ==>
            forall u :: u != volumeID ==> (u in names <==> u in names0) && (u in names ==> names[u] == names0[u]))
      && (forall name :: (volumeID in managers0 ==> name != VfsName(volumeID, managers0[volumeID].generation)) ==>
            (name in dirs <==> name in dirs0) && (name in dirs ==> dirs[name] == dirs0[name]))
      && (forall name :: name in dirs0 && name !in dirs ==> !DirtyScan.HasDirtyItems(env.walk))
    }

    /** cleanupS3Sync. Success is what lets the orchestrator publish elsewhere. */
    method CleanupS3Sync(volumeID: string, stagingPath: string, env: Env) returns (verdict: Verdict)
      modifies this, sync`backgroundDrains, sync.disk
      // a success with a staging path that the annotation did not force
      ensures verdict.Success? && stagingPath != ""
              && !(env.force && (volumeID in old(sync.backgroundDrains) || DirtyScan.Reports(env.gate, volumeID))) ==>
                && volumeID !in old(sync.backgroundDrains) && volumeID !in managers
                && sync.State() == old(sync.State())
                && (volumeID in old(managers) ==> !DirtyScan.HasDirtyItems(env.walk))
                && (volumeID in old(managers) && Honest(env) ==> !DirLooksDirty(env.settled))
                && (volumeID in old(managers) && env.removed
                    && (old(managers)[volumeID].mounted || env.isMountPoint) ==>
                      old(ManagerName(volumeID)) !in dirs)
                && (volumeID !in old(managers) ==> !DirtyScan.Reports(env.listing, volumeID) && dirs == old(dirs))
      // and every case in which it must succeed: nothing mounted and nothing left to
      // upload, or an empty queue confirmed by the drain and by the clean directory
      ensures (&& volumeID !in old(sync.backgroundDrains) && volumeID !in old(managers)
               && (stagingPath == "" || !DirtyScan.Reports(env.listing, volumeID))) ==> verdict.Success?
      ensures (&& volumeID !in old(sync.backgroundDrains) && volumeID in old(managers)
               && env.probeMounted && env.probe == Queue(0, 0)
               && Confirmed(SHORT_DRAIN_WAIT, env.polls) && !DirtyScan.HasDirtyItems(env.walk)) ==> verdict.Success?
      // a refusal keeps every cache directory and leaves a drain at work
      ensures verdict.UnuploadedData? ==>
                && old(dirs).Keys <= dirs.Keys && names == old(names)
                && (volumeID in sync.backgroundDrains || !env.pvReadable)
      // with the annotation set, anything unuploaded is given up on, not refused: the
      // manager goes and the short unmount really runs, with no drain started
      ensures env.force && (volumeID in old(sync.backgroundDrains) || DirtyScan.Reports(env.gate, volumeID)) ==>
                && verdict.Success? && managers == old(managers) - {volumeID} && sync.State() == old(sync.State())
                && (volumeID in old(managers) ==>
                      UnmountRan(old(managers)[volumeID], volumeID, 60, env, old(dirs), old(names), dirs, names))
                && (volumeID !in old(managers) ==> dirs == old(dirs) && names == old(names))
      // not forced, and a drain at work: refused with nothing touched
      ensures !env.force && volumeID in old(sync.backgroundDrains) ==>
                && verdict.UnuploadedData? && managers == old(managers) && sync.State() == old(sync.State())
                && dirs == old(dirs) && names == old(names)
      // no manager: refused if the cache still holds something, which is then drained
      ensures !(env.force && DirtyScan.Reports(env.gate, volumeID))
              && volumeID !in old(sync.backgroundDrains) && volumeID !in old(managers) ==>
                && managers == old(managers) && dirs == old(dirs) && names == old(names)
                && (verdict.UnuploadedData? <==> stagingPath != "" && DirtyScan.Reports(env.listing, volumeID))
                && sync.State() == if verdict.UnuploadedData? && env.pvReadable
                                   then DrainSlots.Started(old(sync.State()), volumeID, env.marked)
                                   else old(sync.State())
      // a manager whose queue looks drained: unmounted in short, and the verdict is the unmount's
      ensures !(env.force && DirtyScan.Reports(env.gate, volumeID))
              && volumeID !in old(sync.backgroundDrains) && volumeID in old(managers) && LooksDrained(env) ==>
                && managers == old(managers) - {volumeID}
                && UnmountRan(old(managers)[volumeID], volumeID, 60, env, old(dirs), old(names), dirs, names)
                && (verdict.Success? <==>
                    stagingPath == ""
                    || (!DirtyScan.HasDirtyItems(env.walk)
                        && (old(managers)[volumeID].mounted || env.isMountPoint ==> Confirmed(60, env.polls))))
                && sync.State() == if verdict.UnuploadedData? && env.pvReadable
                                   then DrainSlots.Started(old(sync.State()), volumeID, env.marked)
                                   else old(sync.State())
      // and one with uploads under way: refused, and left to a background drain
      ensures !(env.force && DirtyScan.Reports(env.gate, volumeID))
              && volumeID !in old(sync.backgroundDrains) && volumeID in old(managers) && !LooksDrained(env) ==>
                && verdict.UnuploadedData? && managers == old(managers) && dirs == old(dirs) && names == old(names)
                && sync.State() == DrainSlots.Started(old(sync.State()), volumeID, env.marked)
      ensures OnlyMountedChanges(old(managers), old(dirs), old(names), volumeID, env)
    {
      var unuploaded := DirtyScan.HasUnuploadedDataAt(env.gate, volumeID);
      if (volumeID in sync.backgroundDrains || unuploaded) && env.force {
        ForceCleanup(volumeID, env);
        return Success;
      }
      if volumeID in sync.backgroundDrains {
        return UnuploadedData;
      }
      if volumeID !in managers {
        unuploaded := DirtyScan.HasUnuploadedDataAt(env.listing, volumeID);
        if stagingPath == "" || !unuploaded {
          return Success;
        }
        var _ := ResumeStrandedDrain(volumeID, stagingPath, env);
        return UnuploadedData;
      }
      var empty := IsUploadQueueEmpty(volumeID, env);
      if empty {
        var drained := Unmount(volumeID, SHORT_DRAIN_WAIT, env);
        managers := managers - {volumeID};
        if !drained && stagingPath != "" {
          var _ := ResumeStrandedDrain(volumeID, stagingPath, env);
          return UnuploadedData;
        }
        return Success;
      }
      var _ := sync.StartBackgroundDrain(volumeID, env.marked);
      return UnuploadedData;
    }

    /** The goroutine the last branch starts: unmount with the long budget, forget
        the manager, release the slot. */
    method BackgroundDrain(volumeID: string, env: Env) returns (drained: bool)
      modifies this, sync, sync.disk
      ensures sync.State() == DrainSlots.Finished(old(sync.State()), volumeID, drained, env.marked)
      ensures managers == old(managers) - {volumeID}
      ensures drained ==> volumeID in old(managers)
      ensures if volumeID in old(managers)
              then UnmountRan(old(managers)[volumeID], volumeID, 21_600, env, old(dirs), old(names), dirs, names)
              else dirs == old(dirs) && names == old(names)
      ensures drained && Honest(env) ==> !DirLooksDirty(env.settled)
      ensures volumeID in old(managers) && (old(managers)[volumeID].mounted || env.isMountPoint) ==>
                (drained <==> Confirmed(21_600, env.polls) && !DirtyScan.HasDirtyItems(env.walk))
      ensures OnlyMountedChanges(old(managers), old(dirs), old(names), volumeID, env)
    {
      drained := false;
      if volumeID in managers {
        drained := Unmount(volumeID, MAX_DRAIN_WAIT, env);
        managers := managers - {volumeID};
      }
      sync.FinishBackgroundDrain(volumeID, drained, env.marked);
    }
  }

  /** A volume's cleanup reaches no other plain volume's cache, whichever generations
      the two are on. */
  lemma OtherVolumesKeepTheirCaches(node: NodeServer, managers0: map<string, Manager>, dirs0: map<string, CacheDir>,
                                    names0: map<string, string>, volumeID: string, env: Env, other: string,
                                    generation: nat)
    requires PlainVolume(volumeID) && PlainVolume(other) && other != volumeID && generation <= MAX_INT
    requires volumeID in managers0 ==> managers0[volumeID].generation <= MAX_INT
    requires node.OnlyMountedChanges(managers0, dirs0, names0, volumeID, env)
    ensures var name := VfsName(other, generation);
            (name in node.dirs <==> name in dirs0) && (name in node.dirs ==> node.dirs[name] == dirs0[name])
  {
    var name := VfsName(other, generation);
    if volumeID in managers0 && name == VfsName(volumeID, managers0[volumeID].generation) {
      NamesInjective(other, generation, volumeID, managers0[volumeID].generation);
    }
  }

  /** The stats RPC alone would not do: an answer without the diskCache section
      confirms the drain, and only the directory check afterwards stops the reclaim
      of unuploaded writes. It does so exactly when its walk meets the evidence
      before any vanished directory. */
  method MissingSectionIsCaughtOnDisk(node: NodeServer, volumeID: string, env: Env)
    returns (confirmed: bool, drained: bool)
    requires volumeID in node.managers && node.managers[volumeID].mounted
    requires env.polls == [Poll(0, false, NoDiskCache)]
    requires DirLooksDirty(env.walked) && DirtyScan.Shows(env.walk, env.walked)
    modifies node
    ensures confirmed && (!drained <==> DirtyScan.EvidenceFirst(env.walk))
  {
    confirmed := WaitForPendingUploads(SHORT_DRAIN_WAIT, env.polls);
    assert env.polls[0] == Poll(0, false, NoDiskCache);
    drained := node.Unmount(volumeID, SHORT_DRAIN_WAIT, env);
    DirtyScan.DirtyReportedExactly(env.walk);
  }
}
