/** One VFS cache directory: the data files rclone keeps under vfs/<name> and the
    metadata it keeps under vfsMeta/<name> (pkg/rclone/cachecheck.go, vfscache.go).

    Writes are identified by number. The version of an item is the set of writes
    its content includes, and uploading an item replaces the S3 object by that
    version. Assumed of rclone: the Dirty flag in readable metadata is truthful. */
module CacheDirs {
  type FileId = nat
  type WriteId = nat

  /** What corruptReason finds: nothing, ranges past the data file (or no data
      file), or metadata that cannot be read or parsed. */
  datatype Health = Sound | BadRanges | BadMeta

  datatype Item = Item(version: set<WriteId>, dirty: bool, health: Health)

  type CacheDir = map<FileId, Item>

  /** isCacheItemDirty: unreadable metadata is no proof of an upload. */
  predicate LooksDirty(item: Item) {
    item.health.BadMeta? || item.dirty
  }

  predicate DirLooksDirty(dir: CacheDir) {
    exists p :: p in dir && LooksDirty(dir[p])
  }

  /** Items validation finds corrupt and not dirty: S3 has them, so they go. */
  predicate Discarded(item: Item) {
    item.health != Sound && !LooksDirty(item)
  }

  /** Items validation finds corrupt and dirty: they are moved to quarantine. */
  predicate Quarantinable(item: Item) {
    item.health != Sound && LooksDirty(item)
  }

  /** What stays: the sound items, and those whose metadata file could not be
      removed or moved (`stuck`). */
  function AfterValidation(dir: CacheDir, stuck: set<FileId>): CacheDir {
    map p | p in dir && (dir[p].health == Sound || p in stuck) :: dir[p]
  }

  /** The writes that reach quarantine: those whose data file could be moved. A
      quarantine directory that cannot be made puts an item in both sets. */
  function SetAsideWrites(dir: CacheDir, unsaved: set<FileId>): set<WriteId> {
    set p, w | p in dir && Quarantinable(dir[p]) && p !in unsaved && w in dir[p].version :: w
  }

  /** The same in two parts, the check and the move. */
  function Doomed(dir: CacheDir): set<FileId> {
    set p | p in dir && Discarded(dir[p])
  }

  function ToMove(dir: CacheDir): set<FileId> {
    set p | p in dir && Quarantinable(dir[p])
  }

  function WritesOf(dir: CacheDir, items: set<FileId>): set<WriteId> {
    set p, w | p in dir && p in items && w in dir[p].version :: w
  }

  lemma ValidationInTwoParts(dir: CacheDir, stuck: set<FileId>, unsaved: set<FileId>)
    ensures dir - (Doomed(dir) + ToMove(dir) - stuck) == AfterValidation(dir, stuck)
    ensures WritesOf(dir, ToMove(dir) - unsaved) == SetAsideWrites(dir, unsaved)
  {
  }

  /** validateVFSCacheAt: walks the metadata tree once, removing or quarantining
      every corrupt item. Failed renames and removals are ignored. */
  method ValidateVFSCache(dir: CacheDir, stuck: set<FileId>, unsaved: set<FileId>, quarantine: set<WriteId>)
    returns (kept: CacheDir, quarantined: set<WriteId>)
    ensures kept == AfterValidation(dir, stuck)
    ensures quarantined == quarantine + SetAsideWrites(dir, unsaved)
    // sound items stay as they are, and of the corrupt ones exactly those that are stuck
    ensures forall p :: p in kept <==> p in dir && (dir[p].health == Sound || p in stuck)
    ensures forall p :: p in kept ==> kept[p] == dir[p]
    // the writes of corrupt items that are dirty, or unreadable, are in quarantine
    ensures forall w :: w in quarantined <==>
              w in quarantine
              || exists p :: p in dir && dir[p].health != Sound && (dir[p].dirty || dir[p].health == BadMeta)
                             && p !in unsaved && w in dir[p].version
  {
    kept, quarantined := dir, quarantine;
    var todo := dir.Keys;
    while todo != {}
      invariant todo <= dir.Keys
      invariant forall p :: p in kept <==> p in dir && (p in todo || dir[p].health == Sound || p in stuck)
      invariant forall p :: p in kept ==> kept[p] == dir[p]
      invariant forall w :: w in quarantined <==>
                  w in quarantine
                  || exists p :: p in dir && p !in todo && Quarantinable(dir[p]) && p !in unsaved && w in dir[p].version
      decreases todo
    {
      var p :| p in todo;
      if dir[p].health != Sound {
        if LooksDirty(dir[p]) && p !in unsaved {
          quarantined := quarantined + dir[p].version;
        }
        if p !in stuck {
          kept := kept - {p};
        }
      }
      todo := todo - {p};
    }
  }

  /** Every write belongs to one file, and a dirty item has some. */
  ghost predicate OwnWrites(dir: CacheDir) {
    && (forall p :: p in dir && dir[p].dirty ==> dir[p].version != {})
    && (forall p, q :: p in dir && q in dir && p != q ==> dir[p].version !! dir[q].version)
  }

  ghost predicate SparesDirty(dir: CacheDir, stuck: set<FileId>, unsaved: set<FileId>) {
    forall p :: p in dir && dir[p].dirty ==>
      p in AfterValidation(dir, stuck) || dir[p].version <= SetAsideWrites(dir, unsaved)
  }

  /** Validation keeps each dirty item, or has all its writes in quarantine, if and
      only if no corrupt one loses its metadata while its data file stays behind.
      What stays is unchanged, and sound or stuck. */
  lemma ValidationSparesDirtyExactly(dir: CacheDir, stuck: set<FileId>, unsaved: set<FileId>)
    requires OwnWrites(dir)
    ensures SparesDirty(dir, stuck, unsaved) <==>
            forall p :: p in dir && dir[p].dirty && dir[p].health != Sound && p in unsaved ==> p in stuck
    ensures forall p :: p in AfterValidation(dir, stuck) <==> p in dir && (dir[p].health == Sound || p in stuck)
    ensures forall p :: p in AfterValidation(dir, stuck) ==> AfterValidation(dir, stuck)[p] == dir[p]
  {
    forall p | p in dir && dir[p].dirty && dir[p].health != Sound
      ensures dir[p].version <= SetAsideWrites(dir, unsaved) <==> p !in unsaved
    {
      var w :| w in dir[p].version;
      if w in SetAsideWrites(dir, unsaved) {
        var q :| q in dir && Quarantinable(dir[q]) && q !in unsaved && w in dir[q].version;
        assert q == p;
      }
    }
  }
}
