/** CleanupOrphanedVFSCacheDirs and sweepUnmappedVFSCacheDirsAt: which cache
    directories the periodic sweep reclaims (pkg/rclone/vfscache.go). A volume is
    active while its PV exists or the API cannot say. `names` is what LoadVFSNameMap
    answered, which is nothing when the file cannot be read, and `walks` what a walk of
    each directory's metadata meets. */
module OrphanSweep {
  import opened VfsNames
  import opened CacheDirs
  import DirtyScan

  type Walks = map<string, DirtyScan.Tree>

  /** Named by the map for some volume that is not active. */
  ghost predicate MappedByInactive(names: map<string, string>, active: set<string>, name: string) {
    exists u :: u in names && u !in active && names[u] == name
  }

  ghost predicate MappedByActive(names: map<string, string>, active: set<string>, name: string) {
    exists u :: u in names && u in active && names[u] == name
  }

  /** The three reasons for which an unmapped directory stays. */
  predicate KeptUnmapped(walks: Walks, active: set<string>, name: string)
    requires name in walks
  {
    (name in active && VolumeIdOf(name) == name) || DirtyScan.HasDirtyItems(walks[name])
  }

  /** Exactly the directories a sweep leaves. */
  ghost predicate Survives(walks: Walks, names: map<string, string>, active: set<string>, name: string) {
    && name in walks && !MappedByInactive(names, active, name)
    && (MappedByActive(names, active, name) || KeptUnmapped(walks, active, name))
  }

  method CleanupOrphanedVFSCacheDirs(dirs: map<string, CacheDir>, walks: Walks, names: map<string, string>,
                                     active: set<string>)
    returns (dirs': map<string, CacheDir>, names': map<string, string>)
    requires dirs.Keys == walks.Keys
    ensures forall name :: name in dirs' <==> Survives(walks, names, active, name)
    ensures forall name :: name in dirs' ==> name in dirs && dirs'[name] == dirs[name]
    ensures names'.Keys == names.Keys * active && forall u :: u in names' ==> names'[u] == names[u]
  {
    dirs', names' := dirs, names;
    var todo := names.Keys;
    while todo != {}
      invariant todo <= names.Keys
      invariant names'.Keys == todo + names.Keys * active && forall u :: u in names' ==> names'[u] == names[u]
      invariant forall name :: name in dirs' <==>
                  name in dirs && !(exists u :: u in names && u !in todo && u !in active && names[u] == name)
      invariant forall name :: name in dirs' ==> dirs'[name] == dirs[name]
      decreases todo
    {
      var u :| u in todo;
      if u !in active {
        dirs' := dirs' - {names[u]};
        names' := names' - {u};
      }
      todo := todo - {u};
    }
    assert forall name :: name in dirs' <==> name in dirs && !MappedByInactive(names, active, name);
    dirs' := SweepUnmapped(dirs', walks, names', active);
  }

  method SweepUnmapped(dirs: map<string, CacheDir>, walks: Walks, names: map<string, string>, active: set<string>)
    returns (dirs': map<string, CacheDir>)
    requires dirs.Keys <= walks.Keys
    ensures forall name :: name in dirs' <==>
              name in dirs && (name in names.Values || KeptUnmapped(walks, active, name))
    ensures forall name :: name in dirs' ==> dirs'[name] == dirs[name]
  {
    dirs' := dirs;
    var mapped := names.Values;
    var entries := dirs.Keys;
    while entries != {}
      invariant entries <= dirs.Keys
      invariant forall name :: name in dirs' <==>
                  name in dirs && (name in entries || name in mapped || KeptUnmapped(walks, active, name))
      invariant forall name :: name in dirs' ==> dirs'[name] == dirs[name]
      decreases entries
    {
      var name :| name in entries;
      entries := entries - {name};
      if name in mapped {
        continue;
      }
      var volumeID := VolumeIdOf(name);
      if volumeID in active && name == volumeID {
        continue;
      }
      if DirtyScan.HasDirtyItems(walks[name]) {
        continue;
      }
      dirs' := dirs' - {name};
    }
  }

  /** A map as the driver writes it: plain volumes, each on a name of its own. */
  ghost predicate WrittenByDriver(names: map<string, string>) {
    forall u :: u in names ==> PlainVolume(u) && exists g: nat :: g <= MAX_INT && names[u] == VfsName(u, g)
  }

  lemma MappedByItsOwn(names: map<string, string>, active: set<string>, volumeID: string, generation: nat)
    requires WrittenByDriver(names) && PlainVolume(volumeID) && generation <= MAX_INT
    ensures var name := VfsName(volumeID, generation);
            && (MappedByInactive(names, active, name) <==>
                volumeID in names && volumeID !in active && names[volumeID] == name)
            && (MappedByActive(names, active, name) <==>
                volumeID in names && volumeID in active && names[volumeID] == name)
  {
    var name := VfsName(volumeID, generation);
    forall u | u in names && names[u] == name
      ensures u == volumeID
    {
      var g: nat :| g <= MAX_INT && names[u] == VfsName(u, g);
      NamesInjective(u, g, volumeID, generation);
    }
  }

  /** While its PV exists, a generation of a volume is swept exactly when it is not
      generation 0, the map does not name it and its walk says clean. */
  lemma ActiveGenerationSurvivesExactly(walks: Walks, names: map<string, string>, active: set<string>,
                                        volumeID: string, generation: nat)
    requires WrittenByDriver(names) && PlainVolume(volumeID) && volumeID in active && generation <= MAX_INT
    requires VfsName(volumeID, generation) in walks
    ensures var name := VfsName(volumeID, generation);
            Survives(walks, names, active, name) <==>
            generation == 0 || (volumeID in names && names[volumeID] == name) || DirtyScan.HasDirtyItems(walks[name])
  {
    MappedByItsOwn(names, active, volumeID, generation);
    VolumeIdRoundTrip(volumeID, generation);
  }

  /** So the sweep never takes a volume's unuploaded writes, in any generation, while
      its PV exists and each walk meets its evidence before any vanished directory. */
  lemma ActiveVolumesKeepTheirWrites(dirs: map<string, CacheDir>, walks: Walks, names: map<string, string>,
                                     active: set<string>, volumeID: string, generation: nat)
    requires WrittenByDriver(names) && PlainVolume(volumeID) && volumeID in active && generation <= MAX_INT
    requires VfsName(volumeID, generation) in dirs && VfsName(volumeID, generation) in walks
    requires DirLooksDirty(dirs[VfsName(volumeID, generation)])
    requires DirtyScan.Shows(walks[VfsName(volumeID, generation)], dirs[VfsName(volumeID, generation)])
    ensures DirtyScan.EvidenceFirst(walks[VfsName(volumeID, generation)]) ==>
              Survives(walks, names, active, VfsName(volumeID, generation))
  {
    MappedByItsOwn(names, active, volumeID, generation);
    DirtyScan.DirtyReportedExactly(walks[VfsName(volumeID, generation)]);
  }

  /** And otherwise can: a walk that a vanished directory ends early loses a dirty
      generation the map does not name. */
  lemma VanishedDirectoryLosesAGeneration(dirs: map<string, CacheDir>, active: set<string>, volumeID: string)
    requires PlainVolume(volumeID) && volumeID in active
    requires VfsName(volumeID, 1) in dirs && DirLooksDirty(dirs[VfsName(volumeID, 1)])
    ensures var walk := DirtyScan.Folder([DirtyScan.Vanished, DirtyScan.ItemFile(true)]);
            && DirtyScan.Shows(walk, dirs[VfsName(volumeID, 1)])
            && !Survives(map[VfsName(volumeID, 1) := walk], map[], active, VfsName(volumeID, 1))
  {
    var walk := DirtyScan.Folder([DirtyScan.Vanished, DirtyScan.ItemFile(true)]);
    DirtyScan.VanishedFolderHidesDirt();
    assert DirtyScan.Leaves(walk) == [DirtyScan.Vanished, DirtyScan.ItemFile(true)];
    assert DirtyScan.Evidence(DirtyScan.Leaves(walk)[1]);
    ActiveGenerationSurvivesExactly(map[VfsName(volumeID, 1) := walk], map[], active, volumeID, 1);
  }

  /** Once its PV is gone: the mapped directory goes, dirty or not, while one the
      map does not name stays exactly when its walk finds it dirty. */
  lemma DeletedVolumeLosesTheMappedCache(walks: Walks, names: map<string, string>, active: set<string>,
                                         volumeID: string, generation: nat)
    requires WrittenByDriver(names) && PlainVolume(volumeID) && volumeID !in active && generation <= MAX_INT
    requires VfsName(volumeID, generation) in walks
    ensures Survives(walks, names, active, VfsName(volumeID, generation)) <==>
            DirtyScan.HasDirtyItems(walks[VfsName(volumeID, generation)])
            && !(volumeID in names && names[volumeID] == VfsName(volumeID, generation))
  {
    MappedByItsOwn(names, active, volumeID, generation);
    VolumeIdRoundTrip(volumeID, generation);
  }
}
