/** One node's view of one volume: cache generations, the persisted name map, the
    VFSes rclone serves, the mount manager, and the mount and unmount sequences in
    the steps at which a crash can separate them
    (pkg/rclone/syncmanager.go, vfscache.go and pkg/driver/node_s3.go).

    Assumed, and visible in Enabled below:
      - mounts and unmounts of one volume are serialised: a mount is named only
        when no unmount is under way, and unmounts start while no mount is;
      - when the queue is confirmed empty, every dirty item is open (EvictProbe);
      - a sweep holds the lock of the name map from its checks to its removals. */
module NodeCache {
  import opened Basics
  import opened CacheDirs
  import DirtyScan
  import VfsNames

  /** Where a mount has got to. `gen` is the generation it works on. */
  datatype MountStage =
    | NotMounting
    | Created(gen: nat)      // NewMountManager has read the name map
    | Named(gen: nat)        // ensureExclusiveVFSName has settled the generation
    // ValidateVFSCache has found items to remove and items to move to quarantine
    | Vetting(gen: nat, doomed: set<FileId>, aside: set<FileId>)
    | Checked(gen: nat)      // and has done so
    | Registered(gen: nat)   // mount/mount has returned: rclone has a VFS
    | Recorded(gen: nat)     // SaveVFSName has run
    | Exposed(gen: nat)      // bound at the staging path: consumers can write

  /** Unmanaged is cleanupS3Sync without a mount manager: it only asks whether
      anything is left to upload, in any generation. */
  datatype Purpose = FastPath | Background | Forced | PreMount | Unmanaged

  /** Where an unmount has got to. */
  datatype UnmountStage =
    | Waiting                // waitForPendingUploads
    | Down(drained: bool)    // staging unbound, sessions asked to shut down
    | Judged(clean: bool)    // the cache directory has been checked
    | Reclaimed              // the cache directory is gone
    | Forgotten              // RemoveVFSName has run

  datatype Unmount = Unmount(gen: nat, purpose: Purpose, stage: UnmountStage)

  /** An eviction pass: the queue is confirmed empty, the files are collected, the
      open ones among them listed, and then the others are removed one by one. */
  datatype EvictPass =
    | NoPass
    | Probed(gen: nat)
    | Walked(gen: nat, files: set<FileId>)
    | Pass(gen: nat, doomed: set<FileId>)

  datatype Node = Node(
    dirs: map<nat, CacheDir>,       // disk: cache directories by generation
    names: Option<nat>,             // disk: generation the name map records
    torn: bool,                     // disk: the map file is being rewritten in place
    quarantine: set<WriteId>,       // disk
    serving: map<nat, bool>,        // VFSes by generation; true once consumers can reach it
    manager: Option<nat>,           // generation of the registered mount manager
    mounting: MountStage,
    unmounts: map<nat, Unmount>,    // unmount calls in progress
    slot: bool,                     // the background drain slot
    open: set<(nat, FileId)>,       // files held open, with their generation
    evict: EvictPass,
    sweep: Option<nat>,             // generation a sweep found clean and is about to remove
    home: Option<nat>)              // history: generation last mounted and not reclaimed since

  const EMPTY_NODE := Node(map[], None, false, {}, map[], None, NotMounting, map[], false, {}, NoPass, None, None)

  function Dir(n: Node, g: nat): CacheDir {
    if g in n.dirs then n.dirs[g] else map[]
  }

  ghost predicate DirtyAt(n: Node, g: nat, p: FileId) {
    p in Dir(n, g) && Dir(n, g)[p].dirty
  }

  ghost function VersionAt(n: Node, g: nat, p: FileId): set<WriteId>
    requires p in Dir(n, g)
  {
    Dir(n, g)[p].version
  }

  ghost predicate CleanNode(n: Node) {
    forall g, p :: !DirtyAt(n, g, p)
  }

  /** NewMountManager's choice: LoadVFSNameMap answers an empty map when the file
      cannot be read or parsed, and no entry means generation 0. */
  function ReadGen(n: Node, readable: bool): nat {
    if readable && !n.torn then n.names.GetOr(0) else 0
  }

  /** hasUnuploadedDataAt answers "no": the walk of every generation says clean. */
  ghost predicate NothingUnuploaded(n: Node, walks: map<nat, DirtyScan.Tree>) {
    forall g :: g in n.dirs ==> g in walks && DirtyScan.SaysClean(walks[g], n.dirs[g])
  }

  // ---- steps ----

  datatype NodeStep =
    // mountS3Volume and MountManager.Mount
    | BeginMount(readable: bool)
    | Name(g: nat)
    | Vet
    | Validate(stuck: set<FileId>, unsaved: set<FileId>)
    | Register
    | Record(save: Save)
    | Expose
    | Adopt
    | AbortMount(stays: bool)           // the VFS stays when its unmount runs out of time
    // MountManager.unmount
    | BeginUnmount(id: nat, purpose: Purpose)
    | Shut(id: nat, drained: bool, left: set<nat>)   // VFSes whose unmount ran out of time
    | Judge(id: nat, clean: bool, walk: DirtyScan.Tree)
    | JudgeAll(id: nat, clean: bool, walks: map<nat, DirtyScan.Tree>)
    | Reclaim(id: nat, undeleted: set<FileId>)
    | Forget(id: nat, save: Save)
    | FinishUnmount(id: nat)
    // drain slot and reconcile
    | ClaimSlot
    | ReleaseSlot
    | DropManager(left: set<nat>)
    // cache upkeep
    | SweepCheck(g: nat, walk: DirtyScan.Tree, readable: bool)
    | SweepRemove(undeleted: set<FileId>)
    | EvictProbe(g: nat)
    | EvictWalk
    | EvictList
    | EvictOne(p: FileId)
    | EvictEnd
    // environment
    | OpenFile(g: nat, p: FileId)
    | CloseFile(g: nat, p: FileId)
    | VfsGone(g: nat)
    | Corrupt(g: nat, p: FileId, health: Health)   // for the worse, or readable again
    | LoseEntry                                    // another volume's save, after a failed read or cut short
    | TearMap
    | MendMap
    | Crash

  /** Consumers can open files of generation g. */
  predicate Reachable(n: Node, g: nat) {
    g in n.serving && n.serving[g]
  }

  ghost predicate DirtyIsOpen(n: Node, g: nat) {
    forall p: FileId :: DirtyAt(n, g, p) ==> (g, p) in n.open
  }

  ghost predicate DirtyAmongIsOpen(n: Node, g: nat, files: set<FileId>) {
    forall p: FileId :: p in files && DirtyAt(n, g, p) ==> (g, p) in n.open
  }

  ghost predicate NoneDirtyAmong(n: Node, g: nat, files: set<FileId>) {
    forall p :: p in files ==> !DirtyAt(n, g, p)
  }

  /** Before its listing a pass can still come to remove this file, if it is closed. */
  predicate Threatens(pass: EvictPass, p: FileId) {
    pass.Probed? || (pass.Walked? && p in pass.files)
  }

  /** All VFSes end but those of these generations, and their open files with them. */
  function Surviving(n: Node, left: set<nat>): Node {
    n.(serving := map g | g in n.serving && g in left :: n.serving[g], open := set q | q in n.open && q.0 in left)
  }

  /** The VFS of one generation ends. */
  function Without(n: Node, g: nat): Node {
    Surviving(n, n.serving.Keys - {g})
  }

  predicate MountStep(s: NodeStep) {
    || s.BeginMount? || s.Name? || s.Vet? || s.Validate? || s.Register? || s.Record? || s.Expose? || s.Adopt?
    || s.AbortMount?
  }

  predicate UnmountStep(s: NodeStep) {
    s.BeginUnmount? || s.Shut? || s.Judge? || s.JudgeAll? || s.Reclaim? || s.Forget? || s.FinishUnmount?
  }

  predicate UpkeepStep(s: NodeStep) {
    || s.ClaimSlot? || s.ReleaseSlot? || s.DropManager? || s.SweepCheck? || s.SweepRemove?
    || s.EvictProbe? || s.EvictWalk? || s.EvictList? || s.EvictOne? || s.EvictEnd?
  }

  ghost predicate Enabled(n: Node, s: NodeStep) {
    if MountStep(s) then MountEnabled(n, s)
    else if UnmountStep(s) then UnmountEnabled(n, s)
    else if UpkeepStep(s) then UpkeepEnabled(n, s)
    else EnvironmentEnabled(n, s)
  }

  predicate MountEnabled(n: Node, s: NodeStep)
    requires MountStep(s)
  {
    match s
    case BeginMount(_) => n.mounting.NotMounting? && n.unmounts == map[]
    case Name(g) => n.mounting.Created? && n.unmounts == map[]
                    && n.mounting.gen <= g <= n.mounting.gen + VfsNames.MAX_VFS_GENERATIONS
    case Vet => n.mounting.Named?
    case Validate(_, _) => n.mounting.Vetting?
    case Register => n.mounting.Checked?
    case Record(_) => n.mounting.Registered? && !n.torn && n.sweep.None?
    case Expose => n.mounting.Recorded?
    case Adopt => n.mounting.Exposed?
    case AbortMount(_) => !n.mounting.NotMounting? && n.unmounts == map[]
  }

  ghost predicate UnmountEnabled(n: Node, s: NodeStep)
    requires UnmountStep(s)
  {
    match s
    case BeginUnmount(id, purpose) =>
      id !in n.unmounts &&
      (match purpose
       case FastPath => n.mounting.NotMounting? && n.manager.Some? && !n.slot && n.unmounts == map[]
       case Background => n.mounting.NotMounting? && n.manager.Some? && n.slot
                          && (forall i :: i in n.unmounts ==> n.unmounts[i].purpose == Forced)
       case Forced => n.mounting.NotMounting? && n.manager.Some?
       case PreMount => n.mounting.Created? && n.unmounts == map[]
       case Unmanaged => n.mounting.NotMounting? && n.manager.None? && !n.slot && n.unmounts == map[])
    case Shut(id, _, _) => id in n.unmounts && n.unmounts[id].stage == Waiting && !n.unmounts[id].purpose.Unmanaged?
    // from Waiting when nothing is mounted
    case Judge(id, clean, walk) => && id in n.unmounts && !n.unmounts[id].purpose.Unmanaged?
                                   && (n.unmounts[id].stage == Waiting || n.unmounts[id].stage.Down?)
                                   && (clean ==> n.unmounts[id].stage != Down(false)
                                                 && DirtyScan.SaysClean(walk, Dir(n, n.unmounts[id].gen)))
    case JudgeAll(id, clean, walks) => && id in n.unmounts && n.unmounts[id].purpose.Unmanaged?
                                       && n.unmounts[id].stage == Waiting && (clean ==> NothingUnuploaded(n, walks))
    case Reclaim(id, _) => id in n.unmounts && n.unmounts[id].stage == Judged(true)
                           && !n.unmounts[id].purpose.Unmanaged?
    case Forget(id, _) => id in n.unmounts && n.unmounts[id].stage == Reclaimed && !n.torn && n.sweep.None?
    case FinishUnmount(id) => id in n.unmounts
                              && (n.unmounts[id].stage == Judged(false) || n.unmounts[id].stage == Forgotten
                                  || n.unmounts[id] == Unmount(n.unmounts[id].gen, Unmanaged, Judged(true)))
  }

  ghost predicate UpkeepEnabled(n: Node, s: NodeStep)
    requires UpkeepStep(s)
  {
    match s
    case ClaimSlot => !n.slot
    case ReleaseSlot => n.slot && n.mounting.NotMounting?
                        && (forall i :: i in n.unmounts ==> n.unmounts[i].purpose != Background)
    case DropManager(_) => n.mounting.NotMounting? && n.unmounts == map[] && !n.slot
    case SweepCheck(g, walk, readable) => && g != 0 && !n.torn && n.sweep.None? && (readable ==> n.names != Some(g))
                                          && DirtyScan.SaysClean(walk, Dir(n, g))
    case SweepRemove(_) => n.sweep.Some?
    case EvictProbe(g) => n.evict.NoPass? && g in n.serving && DirtyIsOpen(n, g)
    case EvictWalk => n.evict.Probed?
    case EvictList => n.evict.Walked?
    case EvictOne(p) => n.evict.Pass? && p in n.evict.doomed
    case EvictEnd => !n.evict.NoPass?
  }

  predicate EnvironmentEnabled(n: Node, s: NodeStep)
    requires !MountStep(s) && !UnmountStep(s) && !UpkeepStep(s)
  {
    match s
    case OpenFile(g, _) => Reachable(n, g)
    case CloseFile(g, p) => (g, p) in n.open
    case VfsGone(g) => g in n.serving
    case Corrupt(g, p, _) => p in Dir(n, g)
    case LoseEntry => !n.torn && n.sweep.None?
    case TearMap => !n.torn && n.sweep.None?
    case MendMap => n.torn
    case Crash => true
  }

  function Stage(n: Node, id: nat, stage: UnmountStage): Node
    requires id in n.unmounts
  {
    n.(unmounts := n.unmounts[id := n.unmounts[id].(stage := stage)])
  }

  /** The map entry after an attempt to make it `wanted`. */
  function Entry(n: Node, save: Save, wanted: Option<nat>): Option<nat> {
    match save
    case Saved => wanted
    case Untouched => n.names
    case Emptied => None
  }

  /** What removeVFSCacheDirsAt leaves of a directory, failed removals included. */
  function Removed(n: Node, g: nat, undeleted: set<FileId>): CacheDir {
    map p | p in Dir(n, g) && p in undeleted :: Dir(n, g)[p]
  }

  ghost function Next(n: Node, s: NodeStep): Node
    requires Enabled(n, s)
  {
    if MountStep(s) then MountNext(n, s)
    else if UnmountStep(s) then UnmountNext(n, s)
    else if UpkeepStep(s) then UpkeepNext(n, s)
    else EnvironmentNext(n, s)
  }

  function MountNext(n: Node, s: NodeStep): Node
    requires MountStep(s) && MountEnabled(n, s)
  {
    match s
    case BeginMount(readable) => n.(mounting := Created(ReadGen(n, readable)))
    case Name(g) => n.(mounting := Named(g))
    case Vet =>
      var dir := Dir(n, n.mounting.gen);
      n.(mounting := Vetting(n.mounting.gen, Doomed(dir), ToMove(dir)))
    case Validate(stuck, unsaved) =>
      var g := n.mounting.gen;
      n.(mounting := Checked(g), dirs := n.dirs[g := Dir(n, g) - (n.mounting.doomed + n.mounting.aside - stuck)],
         quarantine := n.quarantine + WritesOf(Dir(n, g), n.mounting.aside - unsaved))
    case Register =>
      var g := n.mounting.gen;
      n.(mounting := Registered(g), serving := n.serving[g := g in n.serving && n.serving[g]])
    case Record(save) => n.(mounting := Recorded(n.mounting.gen), home := Some(n.mounting.gen),
                            names := Entry(n, save, Some(n.mounting.gen)))
    case Expose => n.(mounting := Exposed(n.mounting.gen), serving := n.serving[n.mounting.gen := true])
    case Adopt => n.(mounting := NotMounting, manager := Some(n.mounting.gen))
    case AbortMount(stays) => (if stays then n else Without(n, n.mounting.gen)).(mounting := NotMounting)
  }

  ghost function UnmountNext(n: Node, s: NodeStep): Node
    requires UnmountStep(s) && UnmountEnabled(n, s)
  {
    match s
    case BeginUnmount(id, purpose) =>
      var g := match purpose case PreMount => n.mounting.gen case Unmanaged => 0 case _ => n.manager.value;
      n.(unmounts := n.unmounts[id := Unmount(g, purpose, Waiting)],
         manager := if purpose == Forced then None else n.manager)
    case Shut(id, drained, left) => Surviving(Stage(n, id, Down(drained)), left)
    case Judge(id, clean, _) => Stage(n, id, Judged(clean))
    case JudgeAll(id, clean, _) => Stage(n, id, Judged(clean))
    case Reclaim(id, undeleted) =>
      Stage(n, id, Reclaimed).(dirs := n.dirs[n.unmounts[id].gen := Removed(n, n.unmounts[id].gen, undeleted)])
    case Forget(id, save) =>
      Stage(n, id, Forgotten).(names := Entry(n, save, None),
                               home := if n.home == Some(n.unmounts[id].gen) then None else n.home)
    case FinishUnmount(id) =>
      var u := n.unmounts[id];
      n.(unmounts := n.unmounts - {id},
         manager := if u.purpose == FastPath || u.purpose == Background then None else n.manager,
         slot := n.slot && u.purpose != Background)
  }

  ghost function UpkeepNext(n: Node, s: NodeStep): Node
    requires UpkeepStep(s) && UpkeepEnabled(n, s)
  {
    match s
    case ClaimSlot => n.(slot := true)
    case ReleaseSlot => n.(slot := false)
    case DropManager(left) => Surviving(n, left).(manager := None)
    case SweepCheck(g, _, _) => n.(sweep := Some(g))
    case SweepRemove(undeleted) =>
      n.(dirs := n.dirs[n.sweep.value := Removed(n, n.sweep.value, undeleted)], sweep := None)
    case EvictProbe(g) => n.(evict := Probed(g))
    case EvictWalk => n.(evict := Walked(n.evict.gen, Dir(n, n.evict.gen).Keys))
    case EvictList => n.(evict := Pass(n.evict.gen, set p | p in n.evict.files && (n.evict.gen, p) !in n.open))
    case EvictOne(p) => n.(dirs := n.dirs[n.evict.gen := Dir(n, n.evict.gen) - {p}])
    case EvictEnd => n.(evict := NoPass)
  }

  function EnvironmentNext(n: Node, s: NodeStep): Node
    requires !MountStep(s) && !UnmountStep(s) && !UpkeepStep(s) && EnvironmentEnabled(n, s)
  {
    match s
    case OpenFile(g, p) => n.(open := n.open + {(g, p)})
    case CloseFile(g, p) => n.(open := n.open - {(g, p)})
    case VfsGone(g) => Without(n, g)
    case Corrupt(g, p, health) =>
      n.(dirs := n.dirs[g := Dir(n, g)[p := Dir(n, g)[p].(health := health)]])
    case LoseEntry => n.(names := None)
    case TearMap => n.(torn := true)
    case MendMap => n.(torn := false)
    case Crash => n.(names := if n.torn then None else n.names, torn := false, serving := map[], manager := None,
                     mounting := NotMounting, unmounts := map[], slot := false, open := {}, evict := NoPass,
                     sweep := None)
  }

  // ---- the two steps that change what is dirty ----

  predicate CanWrite(n: Node, g: nat, p: FileId) {
    Reachable(n, g) && (g, p) in n.open
  }

  /** A consumer writes to the open file p through generation g. rclone revalidates
      a clean cached file against S3, so the new version builds on the cached one
      only when that is itself dirty. */
  function Written(n: Node, g: nat, p: FileId, w: WriteId, remote: set<WriteId>): Node {
    var base := if p in Dir(n, g) && Dir(n, g)[p].dirty then Dir(n, g)[p].version else remote;
    n.(dirs := n.dirs[g := Dir(n, g)[p := Item(base + {w}, true, Sound)]])
  }

  /** rclone's write-back finishes uploading the item. */
  function Uploaded(n: Node, g: nat, p: FileId): Node
    requires p in Dir(n, g)
  {
    n.(dirs := n.dirs[g := Dir(n, g)[p := Dir(n, g)[p].(dirty := false, health := Sound)]])
  }

  /** No write lands, between the listing of an eviction pass and its last removal,
      in a file that is to be removed. */
  predicate QuietWrite(n: Node, g: nat, p: FileId) {
    n.evict.Pass? && n.evict.gen == g ==> p !in n.evict.doomed
  }

  /** The other ways in which a check is overtaken before it is acted on, and one
      failed rename: a dirty file is closed between the probe and the listing of an
      eviction pass; consumers reach a generation that is being swept, that an
      unmount is about to reclaim or report clean, or that validation is about to
      remove items from; a directory vanishes under a walk; a corrupt item's
      metadata moves to quarantine and its data does not. */
  ghost predicate NoRace(n: Node, s: NodeStep)
    requires Enabled(n, s)
  {
    && (Next(n, s).evict == n.evict ==>
        forall p: FileId :: Threatens(n.evict, p) && DirtyAt(n, n.evict.gen, p) && (n.evict.gen, p) in n.open ==>
          (n.evict.gen, p) in Next(n, s).open)
    && (s.SweepCheck? ==> !Reachable(n, s.g) && DirtyScan.Steady(s.walk))
    && (s.Expose? ==> n.sweep != Some(n.mounting.gen))
    && (s.Judge? && s.clean ==> !Reachable(n, n.unmounts[s.id].gen) && DirtyScan.Steady(s.walk))
    && (s.JudgeAll? && s.clean ==> Unreachable(n) && forall g :: g in s.walks ==> DirtyScan.Steady(s.walks[g]))
    && (s.Vet? && Reachable(n, n.mounting.gen) ==> Doomed(Dir(n, n.mounting.gen)) == {})
    && (s.Validate? ==> n.mounting.aside * s.unsaved <= s.stuck)
  }

  /** Consumers can reach no VFS of the volume. */
  predicate Unreachable(n: Node) {
    forall g :: g in n.serving ==> !n.serving[g]
  }

  predicate ReachableOnly(n: Node, g: nat) {
    forall h :: h in n.serving && n.serving[h] ==> h == g
  }

  // ---- what every run keeps ----

  predicate Past(stage: UnmountStage) {
    stage == Judged(true) || stage == Reclaimed || stage == Forgotten
  }

  ghost predicate NoneDirty(n: Node, g: nat) {
    forall p :: !DirtyAt(n, g, p)
  }

  /** Neither dirty nor open to writes. */
  ghost predicate AtRest(n: Node, g: nat) {
    NoneDirty(n, g) && !Reachable(n, g)
  }

  /** What an unmount past its check has found stays so. */
  ghost predicate Settled(n: Node, u: Unmount) {
    if u.purpose.Unmanaged? then CleanNode(n) && Unreachable(n) else AtRest(n, u.gen)
  }

  /** None of these files is dirty, or can become so. */
  ghost predicate Expendable(n: Node, g: nat, files: set<FileId>) {
    NoneDirtyAmong(n, g, files) && (files != {} ==> !Reachable(n, g))
  }

  /** Until its listing an eviction pass threatens no dirty file that is closed, and
      after it none at all. */
  ghost predicate EvictInv(n: Node) {
    && (n.evict.Probed? ==> DirtyIsOpen(n, n.evict.gen))
    && (n.evict.Walked? ==> DirtyAmongIsOpen(n, n.evict.gen, n.evict.files))
    && (n.evict.Pass? ==> NoneDirtyAmong(n, n.evict.gen, n.evict.doomed))
  }

  ghost predicate Inv(n: Node) {
    && (!n.mounting.NotMounting? && !n.mounting.Created? ==> n.unmounts == map[])
    && (n.mounting.Vetting? ==> Expendable(n, n.mounting.gen, n.mounting.doomed))
    && (forall i :: i in n.unmounts && Past(n.unmounts[i].stage) ==> Settled(n, n.unmounts[i]))
    && EvictInv(n)
    && (n.sweep.Some? ==> AtRest(n, n.sweep.value))
  }

  /** The dirty items a step moves to quarantine. */
  ghost function Aside(n: Node, s: NodeStep): set<(nat, FileId)>
    requires Enabled(n, s)
  {
    if !s.Validate? then {} else set p | p in n.mounting.aside - s.stuck - s.unsaved :: (n.mounting.gen, p)
  }

  /** From n to n' no dirty item is created, and each one is kept unchanged, or is
      among those set aside and has its writes in quarantine. */
  ghost predicate KeepsDirty(n: Node, n': Node, aside: set<(nat, FileId)>) {
    && n.quarantine <= n'.quarantine
    && (forall g, p :: DirtyAt(n', g, p) ==> DirtyAt(n, g, p) && VersionAt(n', g, p) == VersionAt(n, g, p))
    && (forall g: nat, p: FileId :: DirtyAt(n, g, p) ==>
          DirtyAt(n', g, p) || ((g, p) in aside && VersionAt(n, g, p) <= n'.quarantine))
  }

  lemma SameDirsKeepDirty(n: Node, n': Node)
    requires n'.dirs == n.dirs && n'.quarantine == n.quarantine
    ensures KeepsDirty(n, n', {})
  {
    assert forall g :: Dir(n', g) == Dir(n, g);
  }

  /** Replacing one directory keeps dirty items when that replacement does. */
  lemma OneDirKeepsDirty(n: Node, n': Node, g: nat)
    requires n'.quarantine == n.quarantine && forall g' :: g' != g ==> Dir(n', g') == Dir(n, g')
    requires forall p :: DirtyAt(n', g, p) ==> DirtyAt(n, g, p) && VersionAt(n', g, p) == VersionAt(n, g, p)
    requires forall p :: DirtyAt(n, g, p) ==> DirtyAt(n', g, p)
    ensures KeepsDirty(n, n', {})
  {
  }

  lemma ValidateKeepsDirty(n: Node, s: NodeStep)
    requires Inv(n) && Enabled(n, s) && s.Validate? && NoRace(n, s)
    ensures KeepsDirty(n, Next(n, s), Aside(n, s))
  {
    var g, n' := n.mounting.gen, Next(n, s);
    assert forall g' :: g' != g ==> Dir(n', g') == Dir(n, g');
    forall p: FileId | DirtyAt(n, g, p) && !DirtyAt(n', g, p)
      ensures (g, p) in Aside(n, s) && VersionAt(n, g, p) <= n'.quarantine
    {
      assert p in n.mounting.aside - s.stuck - s.unsaved;
    }
  }

  /** Uninterrupted, the two steps are the validation CacheDirs specifies. */
  lemma StepsOfValidation(n: Node, stuck: set<FileId>, unsaved: set<FileId>)
    requires Enabled(n, Vet)
    ensures var vetted := Next(n, Vet);
            var g := n.mounting.gen;
            && Enabled(vetted, Validate(stuck, unsaved))
            && Next(vetted, Validate(stuck, unsaved)) ==
               n.(mounting := Checked(g), dirs := n.dirs[g := AfterValidation(Dir(n, g), stuck)],
                  quarantine := n.quarantine + SetAsideWrites(Dir(n, g), unsaved))
  {
    ValidationInTwoParts(Dir(n, n.mounting.gen), stuck, unsaved);
  }

  lemma ReclaimKeepsDirty(n: Node, id: nat, undeleted: set<FileId>)
    requires Inv(n) && Enabled(n, Reclaim(id, undeleted))
    ensures KeepsDirty(n, Next(n, Reclaim(id, undeleted)), {})
  {
    var g := n.unmounts[id].gen;
    assert AtRest(n, g) by { assert Past(n.unmounts[id].stage) && Settled(n, n.unmounts[id]); }
    OneDirKeepsDirty(n, Next(n, Reclaim(id, undeleted)), g);
  }

  lemma SweepKeepsDirty(n: Node, undeleted: set<FileId>)
    requires Inv(n) && Enabled(n, SweepRemove(undeleted))
    ensures KeepsDirty(n, Next(n, SweepRemove(undeleted)), {})
  {
    OneDirKeepsDirty(n, Next(n, SweepRemove(undeleted)), n.sweep.value);
  }

  lemma EvictKeepsDirty(n: Node, p: FileId)
    requires Inv(n) && Enabled(n, EvictOne(p))
    ensures KeepsDirty(n, Next(n, EvictOne(p)), {})
  {
    OneDirKeepsDirty(n, Next(n, EvictOne(p)), n.evict.gen);
  }

  lemma CorruptKeepsDirty(n: Node, g: nat, p: FileId, health: Health)
    requires Enabled(n, Corrupt(g, p, health))
    ensures KeepsDirty(n, Next(n, Corrupt(g, p, health)), {})
  {
    OneDirKeepsDirty(n, Next(n, Corrupt(g, p, health)), g);
  }

  predicate TouchesDirs(s: NodeStep) {
    s.Validate? || s.Reclaim? || s.SweepRemove? || s.EvictOne? || s.Corrupt?
  }

  lemma MountStepsKeepDirs(n: Node, s: NodeStep)
    requires MountStep(s) && MountEnabled(n, s) && !TouchesDirs(s)
    ensures MountNext(n, s).dirs == n.dirs && MountNext(n, s).quarantine == n.quarantine
  {
  }

  lemma UnmountStepsKeepDirs(n: Node, s: NodeStep)
    requires UnmountStep(s) && UnmountEnabled(n, s) && !TouchesDirs(s)
    ensures UnmountNext(n, s).dirs == n.dirs && UnmountNext(n, s).quarantine == n.quarantine
  {
  }

  lemma UpkeepStepsKeepDirs(n: Node, s: NodeStep)
    requires UpkeepStep(s) && UpkeepEnabled(n, s) && !TouchesDirs(s)
    ensures UpkeepNext(n, s).dirs == n.dirs && UpkeepNext(n, s).quarantine == n.quarantine
  {
  }

  lemma OtherStepsKeepDirs(n: Node, s: NodeStep)
    requires Enabled(n, s) && !TouchesDirs(s)
    ensures Next(n, s).dirs == n.dirs && Next(n, s).quarantine == n.quarantine
  {
    if MountStep(s) {
      MountStepsKeepDirs(n, s);
    } else if UnmountStep(s) {
      UnmountStepsKeepDirs(n, s);
    } else if UpkeepStep(s) {
      UpkeepStepsKeepDirs(n, s);
    }
  }

  lemma RemovalKeepsDirty(n: Node, s: NodeStep)
    requires Inv(n) && Enabled(n, s) && (s.Reclaim? || s.SweepRemove?)
    ensures KeepsDirty(n, Next(n, s), {}) && Aside(n, s) == {}
  {
    if s.Reclaim? {
      ReclaimKeepsDirty(n, s.id, s.undeleted);
    } else {
      SweepKeepsDirty(n, s.undeleted);
    }
  }

  lemma ItemStepKeepsDirty(n: Node, s: NodeStep)
    requires Inv(n) && Enabled(n, s) && (s.EvictOne? || s.Corrupt?)
    ensures KeepsDirty(n, Next(n, s), {}) && Aside(n, s) == {}
  {
    if s.EvictOne? {
      EvictKeepsDirty(n, s.p);
    } else {
      CorruptKeepsDirty(n, s.g, s.p, s.health);
    }
  }

  lemma StepKeepsDirty(n: Node, s: NodeStep)
    requires Inv(n) && Enabled(n, s) && NoRace(n, s)
    ensures KeepsDirty(n, Next(n, s), Aside(n, s))
  {
    if !TouchesDirs(s) {
      OtherStepsKeepDirs(n, s);
      SameDirsKeepDirty(n, Next(n, s));
    } else if s.Validate? {
      ValidateKeepsDirty(n, s);
    } else if s.Reclaim? || s.SweepRemove? {
      RemovalKeepsDirty(n, s);
    } else {
      ItemStepKeepsDirty(n, s);
    }
  }

  lemma ValidateKeepsInv(n: Node, s: NodeStep)
    requires Inv(n) && Enabled(n, s) && NoRace(n, s) && s.Validate?
    ensures Inv(Next(n, s))
  {
    ValidateKeepsDirty(n, s);
  }

  lemma MountKeepsInv(n: Node, s: NodeStep)
    requires Inv(n) && Enabled(n, s) && NoRace(n, s) && MountStep(s) && !s.Validate?
    ensures Inv(Next(n, s))
  {
    StepKeepsDirty(n, s);
  }

  lemma JudgeKeepsInv(n: Node, s: NodeStep)
    requires Inv(n) && Enabled(n, s) && NoRace(n, s) && s.Judge?
    ensures Inv(Next(n, s))
  {
    StepKeepsDirty(n, s);
    if s.clean {
      CleanWalkMeansNoneDirty(n, n.unmounts[s.id].gen, s.walk);
    }
  }

  lemma JudgeAllKeepsInv(n: Node, s: NodeStep)
    requires Inv(n) && Enabled(n, s) && NoRace(n, s) && s.JudgeAll?
    ensures Inv(Next(n, s))
  {
    StepKeepsDirty(n, s);
    if s.clean {
      NothingUnuploadedIsClean(n, s.walks);
    }
  }

  lemma NothingUnuploadedIsClean(n: Node, walks: map<nat, DirtyScan.Tree>)
    requires NothingUnuploaded(n, walks) && forall g :: g in walks ==> DirtyScan.Steady(walks[g])
    ensures CleanNode(n)
  {
    forall g: nat, p
      ensures !DirtyAt(n, g, p)
    {
      if g in n.dirs {
        CleanWalkMeansNoneDirty(n, g, walks[g]);
      }
    }
  }

  lemma TeardownKeepsInv(n: Node, s: NodeStep)
    requires Inv(n) && Enabled(n, s) && NoRace(n, s) && (s.BeginUnmount? || s.Shut?)
    ensures Inv(Next(n, s))
  {
    StepKeepsDirty(n, s);
  }

  lemma ReclaimKeepsInv(n: Node, s: NodeStep)
    requires Inv(n) && Enabled(n, s) && NoRace(n, s) && (s.Reclaim? || s.Forget? || s.FinishUnmount?)
    ensures Inv(Next(n, s))
  {
    StepKeepsDirty(n, s);
  }

  lemma CleanWalkMeansNoneDirty(n: Node, g: nat, walk: DirtyScan.Tree)
    requires DirtyScan.Steady(walk) && DirtyScan.SaysClean(walk, Dir(n, g))
    ensures NoneDirty(n, g)
  {
    DirtyScan.SteadyWalkIsHonest(walk);
    assert forall p :: DirtyAt(n, g, p) ==> LooksDirty(Dir(n, g)[p]);
  }

  lemma SweepKeepsInv(n: Node, s: NodeStep)
    requires Inv(n) && Enabled(n, s) && NoRace(n, s) && (s.SweepCheck? || s.SweepRemove?)
    ensures Inv(Next(n, s))
  {
    StepKeepsDirty(n, s);
    if s.SweepCheck? {
      CleanWalkMeansNoneDirty(n, s.g, s.walk);
    }
  }

  lemma EvictFrame(n: Node, n': Node)
    requires Inv(n) && n' == n.(evict := n'.evict) && EvictInv(n')
    ensures Inv(n')
  {
    assert forall g, p :: DirtyAt(n', g, p) <==> DirtyAt(n, g, p);
  }

  lemma EvictionKeepsInv(n: Node, s: NodeStep)
    requires Inv(n) && Enabled(n, s) && (s.EvictProbe? || s.EvictWalk? || s.EvictEnd?)
    ensures Inv(Next(n, s))
  {
    SameDirsKeepDirty(n, Next(n, s));
    EvictFrame(n, Next(n, s));
  }

  lemma EvictListKeepsInv(n: Node)
    requires Inv(n) && Enabled(n, EvictList)
    ensures Inv(Next(n, EvictList))
  {
    SameDirsKeepDirty(n, Next(n, EvictList));
    EvictFrame(n, Next(n, EvictList));
  }

  lemma EvictOneKeepsInv(n: Node, p: FileId)
    requires Inv(n) && Enabled(n, EvictOne(p))
    ensures Inv(Next(n, EvictOne(p)))
  {
    EvictKeepsDirty(n, p);
  }

  lemma SlotKeepsInv(n: Node, s: NodeStep)
    requires Inv(n) && Enabled(n, s) && NoRace(n, s) && (s.ClaimSlot? || s.ReleaseSlot? || s.DropManager?)
    ensures Inv(Next(n, s))
  {
    StepKeepsDirty(n, s);
  }

  lemma EnvironmentKeepsInv(n: Node, s: NodeStep)
    requires Inv(n) && Enabled(n, s) && NoRace(n, s) && !MountStep(s) && !UnmountStep(s) && !UpkeepStep(s)
    ensures Inv(Next(n, s))
  {
    StepKeepsDirty(n, s);
  }

  lemma StepKeepsInv(n: Node, s: NodeStep)
    requires Inv(n) && Enabled(n, s) && NoRace(n, s)
    ensures Inv(Next(n, s))
  {
    if s.Validate? {
      ValidateKeepsInv(n, s);
    } else if MountStep(s) {
      MountKeepsInv(n, s);
    } else if s.Judge? {
      JudgeKeepsInv(n, s);
    } else if s.JudgeAll? {
      JudgeAllKeepsInv(n, s);
    } else if s.BeginUnmount? || s.Shut? {
      TeardownKeepsInv(n, s);
    } else if UnmountStep(s) {
      ReclaimKeepsInv(n, s);
    } else if s.SweepCheck? || s.SweepRemove? {
      SweepKeepsInv(n, s);
    } else if s.EvictOne? {
      EvictOneKeepsInv(n, s.p);
    } else if s.EvictList? {
      EvictListKeepsInv(n);
    } else if s.EvictProbe? || s.EvictWalk? || s.EvictEnd? {
      EvictionKeepsInv(n, s);
    } else if UpkeepStep(s) {
      SlotKeepsInv(n, s);
    } else {
      EnvironmentKeepsInv(n, s);
    }
  }

  lemma WriteKeepsInv(n: Node, g: nat, p: FileId, w: WriteId, remote: set<WriteId>)
    requires Inv(n) && CanWrite(n, g, p) && QuietWrite(n, g, p)
    ensures Inv(Written(n, g, p, w, remote))
  {
    var n' := Written(n, g, p, w, remote);
    assert forall g': nat, p' :: DirtyAt(n', g', p') ==> DirtyAt(n, g', p') || (g' == g && p' == p);
  }

  lemma UploadKeepsInv(n: Node, g: nat, p: FileId)
    requires Inv(n) && DirtyAt(n, g, p)
    ensures Inv(Uploaded(n, g, p))
  {
    var n' := Uploaded(n, g, p);
    assert forall g', p' :: DirtyAt(n', g', p') ==> DirtyAt(n, g', p');
  }

  /** The steps of one unmount compose to what MountManager.unmount is specified
      to do (Unstage.NodeServer.Unmount): with the queue confirmed empty and a walk
      that finds nothing dirty the directory and the map entry go, and otherwise
      both stay. */
  lemma StepsOfUnmount(n: Node, id: nat, confirmed: bool, left: set<nat>, walk: DirtyScan.Tree)
    returns (drained: bool, judged: Node)
    requires id in n.unmounts && n.unmounts[id].stage == Waiting && !n.unmounts[id].purpose.Unmanaged?
    requires DirtyScan.Shows(walk, Dir(n, n.unmounts[id].gen))
    ensures drained <==> confirmed && !DirtyScan.HasDirtyItems(walk)
    ensures Enabled(n, Shut(id, confirmed, left))
    ensures Enabled(Next(n, Shut(id, confirmed, left)), Judge(id, drained, walk))
    ensures judged == Next(Next(n, Shut(id, confirmed, left)), Judge(id, drained, walk))
    ensures judged.dirs == n.dirs && judged.names == n.names && judged.serving.Keys <= left
    ensures id in judged.unmounts && judged.unmounts[id] == n.unmounts[id].(stage := Judged(drained))
  {
    var shut := Next(n, Shut(id, confirmed, left));
    assert Dir(shut, n.unmounts[id].gen) == Dir(n, n.unmounts[id].gen);
    drained := confirmed && !DirtyScan.HasDirtyItems(walk);
    judged := Next(shut, Judge(id, drained, walk));
  }

  lemma StepsOfReclaim(n: Node, id: nat) returns (gone: Node)
    requires id in n.unmounts && n.unmounts[id].stage == Judged(true) && !n.unmounts[id].purpose.Unmanaged?
    requires !n.torn && n.sweep.None?
    ensures Enabled(n, Reclaim(id, {})) && Enabled(Next(n, Reclaim(id, {})), Forget(id, Saved))
    ensures gone == Next(Next(n, Reclaim(id, {})), Forget(id, Saved)) && Enabled(gone, FinishUnmount(id))
    ensures gone.names == None && forall g :: Dir(gone, g) == if g == n.unmounts[id].gen then map[] else Dir(n, g)
  {
    var reclaimed := Next(n, Reclaim(id, {}));
    assert reclaimed == n.(unmounts := reclaimed.unmounts, dirs := n.dirs[n.unmounts[id].gen := map[]]);
    gone := Forgets(reclaimed, id);
  }

  lemma Forgets(n: Node, id: nat) returns (gone: Node)
    requires id in n.unmounts && n.unmounts[id].stage == Reclaimed && !n.torn && n.sweep.None?
    ensures Enabled(n, Forget(id, Saved)) && gone == Next(n, Forget(id, Saved)) && Enabled(gone, FinishUnmount(id))
    ensures gone.names == None && gone.dirs == n.dirs
  {
    gone := Next(n, Forget(id, Saved));
  }

  // ---- orderly runs: dirty data stays where the volume is mounted ----

  /** When a mount may settle on generation g: no other generation is dirty, or
      open to writes, and no manager of another one is registered. */
  ghost predicate MaySettle(n: Node, g: nat) {
    && (forall h: nat, p :: DirtyAt(n, h, p) ==> h == g)
    && ReachableOnly(n, g)
    && (n.manager.None? || n.manager == Some(g))
  }

  /** What an orderly run adds to Enabled: mounts settle only so, and no unstage is
      forced. */
  ghost predicate Orderly(n: Node, s: NodeStep) {
    && (s.Name? ==> MaySettle(n, s.g))
    && (s.BeginUnmount? ==> s.purpose != Forced)
  }

  predicate HomeOrNone(n: Node, g: nat) {
    n.home == Some(g) || n.home == None
  }

  ghost predicate OrderlyInv(n: Node) {
    && Inv(n)
    // dirty data, and every VFS consumers can reach, is only in the generation last mounted
    && (forall g: nat, p :: DirtyAt(n, g, p) ==> n.home == Some(g))
    && (forall g: nat :: g in n.serving && n.serving[g] ==> n.home == Some(g))
    && (!n.mounting.NotMounting? && !n.mounting.Created? ==> MaySettle(n, n.mounting.gen))
    && (n.mounting.Recorded? || n.mounting.Exposed? ==> n.home == Some(n.mounting.gen))
    && (n.manager.Some? ==> HomeOrNone(n, n.manager.value))
    && (forall i :: i in n.unmounts ==> n.unmounts[i].purpose != Forced)
    && (forall i :: i in n.unmounts && (n.unmounts[i].purpose.FastPath? || n.unmounts[i].purpose.Background?) ==>
          HomeOrNone(n, n.unmounts[i].gen))
  }

  lemma OrderlyEarlyStep(n: Node, s: NodeStep)
    requires OrderlyInv(n) && Enabled(n, s) && NoRace(n, s) && Orderly(n, s)
    requires s.BeginMount? || s.Name? || s.Vet? || s.Register?
    ensures OrderlyInv(Next(n, s))
  {
    StepKeepsDirty(n, s);
    StepKeepsInv(n, s);
  }

  lemma OrderlyValidate(n: Node, s: NodeStep)
    requires OrderlyInv(n) && Enabled(n, s) && NoRace(n, s) && s.Validate?
    ensures OrderlyInv(Next(n, s))
  {
    ValidateKeepsDirty(n, s);
    StepKeepsInv(n, s);
  }

  lemma OrderlyRecord(n: Node, s: NodeStep)
    requires OrderlyInv(n) && Enabled(n, s) && NoRace(n, s) && s.Record?
    ensures OrderlyInv(Next(n, s))
  {
    StepKeepsDirty(n, s);
    StepKeepsInv(n, s);
  }

  lemma OrderlyLateStep(n: Node, s: NodeStep)
    requires OrderlyInv(n) && Enabled(n, s) && NoRace(n, s)
    requires s.Expose? || s.Adopt? || s.AbortMount?
    ensures OrderlyInv(Next(n, s))
  {
    StepKeepsDirty(n, s);
    StepKeepsInv(n, s);
  }

  lemma OrderlyBeginStep(n: Node, s: NodeStep)
    requires OrderlyInv(n) && Enabled(n, s) && NoRace(n, s) && Orderly(n, s) && s.BeginUnmount?
    ensures OrderlyInv(Next(n, s))
  {
    StepKeepsDirty(n, s);
    StepKeepsInv(n, s);
  }

  lemma OrderlyTeardownStep(n: Node, s: NodeStep)
    requires OrderlyInv(n) && Enabled(n, s) && NoRace(n, s) && (s.Shut? || s.Judge? || s.JudgeAll?)
    ensures OrderlyInv(Next(n, s))
  {
    StepKeepsDirty(n, s);
    StepKeepsInv(n, s);
  }

  lemma OrderlyReclaimStep(n: Node, s: NodeStep)
    requires OrderlyInv(n) && Enabled(n, s) && NoRace(n, s) && Orderly(n, s)
    requires s.Reclaim? || s.Forget? || s.FinishUnmount?
    ensures OrderlyInv(Next(n, s))
  {
    StepKeepsDirty(n, s);
    StepKeepsInv(n, s);
  }

  /** Steps that change only what an orderly run does not ask about. */
  predicate SideStep(s: NodeStep) {
    || s.ClaimSlot? || s.ReleaseSlot? || s.SweepCheck? || s.EvictProbe? || s.EvictWalk? || s.EvictList?
    || s.EvictEnd? || s.OpenFile? || s.CloseFile? || s.LoseEntry? || s.TearMap? || s.MendMap?
  }

  ghost predicate SameButAside(n: Node, n': Node) {
    n' == n.(names := n'.names, torn := n'.torn, slot := n'.slot, open := n'.open, evict := n'.evict, sweep := n'.sweep)
  }

  lemma UpkeepSideStep(n: Node, s: NodeStep)
    requires UpkeepStep(s) && UpkeepEnabled(n, s) && SideStep(s)
    ensures SameButAside(n, UpkeepNext(n, s))
  {
  }

  lemma EnvironmentSideStep(n: Node, s: NodeStep)
    requires !MountStep(s) && !UnmountStep(s) && !UpkeepStep(s) && EnvironmentEnabled(n, s) && SideStep(s)
    ensures SameButAside(n, EnvironmentNext(n, s))
  {
  }

  lemma OrderlyFrame(n: Node, n': Node)
    requires OrderlyInv(n) && Inv(n') && SameButAside(n, n')
    ensures OrderlyInv(n')
  {
    assert forall g, p :: DirtyAt(n', g, p) <==> DirtyAt(n, g, p);
  }

  lemma OrderlySideStep(n: Node, s: NodeStep)
    requires OrderlyInv(n) && Enabled(n, s) && NoRace(n, s) && SideStep(s)
    ensures OrderlyInv(Next(n, s))
  {
    StepKeepsInv(n, s);
    if UpkeepStep(s) {
      UpkeepSideStep(n, s);
    } else {
      EnvironmentSideStep(n, s);
    }
    OrderlyFrame(n, Next(n, s));
  }

  lemma OrderlySweep(n: Node, undeleted: set<FileId>)
    requires OrderlyInv(n) && Enabled(n, SweepRemove(undeleted)) && NoRace(n, SweepRemove(undeleted))
    ensures OrderlyInv(Next(n, SweepRemove(undeleted)))
  {
    SweepKeepsDirty(n, undeleted);
    SweepKeepsInv(n, SweepRemove(undeleted));
  }

  lemma OrderlyEvict(n: Node, p: FileId)
    requires OrderlyInv(n) && Enabled(n, EvictOne(p))
    ensures OrderlyInv(Next(n, EvictOne(p)))
  {
    EvictKeepsDirty(n, p);
    EvictOneKeepsInv(n, p);
  }

  lemma OrderlyEndStep(n: Node, s: NodeStep)
    requires OrderlyInv(n) && Enabled(n, s) && NoRace(n, s) && (s.DropManager? || s.VfsGone?)
    ensures OrderlyInv(Next(n, s))
  {
    StepKeepsDirty(n, s);
    StepKeepsInv(n, s);
  }

  lemma OrderlyCrash(n: Node)
    requires OrderlyInv(n)
    ensures OrderlyInv(Next(n, Crash))
  {
    assert Next(n, Crash).dirs == n.dirs;
    SameDirsKeepDirty(n, Next(n, Crash));
  }

  lemma OrderlyCorrupt(n: Node, s: NodeStep)
    requires OrderlyInv(n) && Enabled(n, s) && NoRace(n, s) && s.Corrupt?
    ensures OrderlyInv(Next(n, s))
  {
    StepKeepsDirty(n, s);
    StepKeepsInv(n, s);
  }

  lemma OrderlyStep(n: Node, s: NodeStep)
    requires OrderlyInv(n) && Enabled(n, s) && NoRace(n, s) && Orderly(n, s)
    ensures OrderlyInv(Next(n, s))
  {
    if s.BeginMount? || s.Name? || s.Vet? || s.Register? {
      OrderlyEarlyStep(n, s);
    } else if s.Validate? {
      OrderlyValidate(n, s);
    } else if s.Record? {
      OrderlyRecord(n, s);
    } else if MountStep(s) {
      OrderlyLateStep(n, s);
    } else if s.BeginUnmount? {
      OrderlyBeginStep(n, s);
    } else if s.Shut? || s.Judge? || s.JudgeAll? {
      OrderlyTeardownStep(n, s);
    } else if s.Reclaim? || s.Forget? || s.FinishUnmount? {
      OrderlyReclaimStep(n, s);
    } else if SideStep(s) {
      OrderlySideStep(n, s);
    } else if s.SweepRemove? {
      OrderlySweep(n, s.undeleted);
    } else if s.EvictOne? {
      OrderlyEvict(n, s.p);
    } else if s.Crash? {
      OrderlyCrash(n);
    } else if s.Corrupt? {
      OrderlyCorrupt(n, s);
    } else {
      OrderlyEndStep(n, s);
    }
  }

  // ---- which generation a restart resumes on ----

  /** The map leads back to the generation last mounted. */
  predicate MapRight(n: Node) {
    n.home.Some? ==> n.names.GetOr(0) == n.home.value
  }

  /** Does the step make the map forget it? A save fails that was needed, another
      volume's save drops the entry, the driver dies while the file is torn, or an
      unmount of some other generation removes it. */
  predicate Slips(n: Node, s: NodeStep) {
    match s
    case Record(save) => n.mounting.Registered?
                         && (if save.Untouched? then n.names.GetOr(0) != n.mounting.gen
                             else save.Emptied? && n.mounting.gen != 0)
    case Forget(id, save) => && n.home.GetOr(0) != 0 && !save.Untouched?
                             && id in n.unmounts && n.home != Some(n.unmounts[id].gen)
    case LoseEntry => n.home.GetOr(0) != 0
    case Crash => n.torn && n.home.GetOr(0) != 0
    case _ => false
  }

  lemma MountMapExactly(n: Node, s: NodeStep)
    requires MapRight(n) && MountStep(s) && MountEnabled(n, s)
    ensures MapRight(MountNext(n, s)) <==> !Slips(n, s)
  {
    if !s.Record? {
      assert MountNext(n, s).names == n.names && MountNext(n, s).home == n.home;
    }
  }

  lemma UnmountMapExactly(n: Node, s: NodeStep)
    requires MapRight(n) && UnmountStep(s) && UnmountEnabled(n, s)
    ensures MapRight(UnmountNext(n, s)) <==> !Slips(n, s)
  {
    if !s.Forget? {
      assert UnmountNext(n, s).names == n.names && UnmountNext(n, s).home == n.home;
    }
  }

  lemma UpkeepKeepsMap(n: Node, s: NodeStep)
    requires UpkeepStep(s) && UpkeepEnabled(n, s)
    ensures UpkeepNext(n, s).names == n.names && UpkeepNext(n, s).home == n.home
  {
  }

  lemma EnvironmentMapExactly(n: Node, s: NodeStep)
    requires MapRight(n) && !MountStep(s) && !UnmountStep(s) && !UpkeepStep(s) && EnvironmentEnabled(n, s)
    ensures MapRight(EnvironmentNext(n, s)) <==> !Slips(n, s)
  {
  }

  lemma MapKeptExactly(n: Node, s: NodeStep)
    requires MapRight(n) && Enabled(n, s)
    ensures MapRight(Next(n, s)) <==> !Slips(n, s)
  {
    if MountStep(s) {
      MountMapExactly(n, s);
    } else if UnmountStep(s) {
      UnmountMapExactly(n, s);
    } else if UpkeepStep(s) {
      UpkeepKeepsMap(n, s);
    } else {
      EnvironmentMapExactly(n, s);
    }
  }

  lemma ASlipMisleads(n: Node, s: NodeStep, g: nat)
    requires MapRight(n) && Enabled(n, s) && Next(n, s).home == Some(g)
    ensures ReadGen(Next(n, s), true) == g <==> !Slips(n, s) && (!Next(n, s).torn || g == 0)
  {
    MapKeptExactly(n, s);
  }

  lemma CrashReadsTheMap(n: Node, readable: bool)
    ensures ReadGen(Next(n, Crash), readable) == if readable && !n.torn then n.names.GetOr(0) else 0
  {
  }

  lemma OrderlyWrite(n: Node, g: nat, p: FileId, w: WriteId, remote: set<WriteId>)
    requires OrderlyInv(n) && CanWrite(n, g, p) && QuietWrite(n, g, p)
    ensures OrderlyInv(Written(n, g, p, w, remote))
  {
    var n' := Written(n, g, p, w, remote);
    assert forall g', p' :: DirtyAt(n', g', p') ==> DirtyAt(n, g', p') || g' == g;
    WriteKeepsInv(n, g, p, w, remote);
  }

  lemma OrderlyUpload(n: Node, g: nat, p: FileId)
    requires OrderlyInv(n) && DirtyAt(n, g, p)
    ensures OrderlyInv(Uploaded(n, g, p))
  {
    var n' := Uploaded(n, g, p);
    assert forall g', p' :: DirtyAt(n', g', p') ==> DirtyAt(n, g', p');
    UploadKeepsInv(n, g, p);
  }
}
