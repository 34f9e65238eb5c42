/** The on-disk evidence of unuploaded writes: hasDirtyCacheItemsAt,
    hasUnuploadedDataAt and volumesWithUnuploadedDataAt (pkg/rclone/vfscache.go). */
module DirtyScan {
  import opened VfsNames
  import CacheDirs

  /** What walking a metadata tree meets: item files, directories, a directory that
      cannot be read, and one that was there when its parent was listed but is gone
      when the walk reaches it. An item whose metadata cannot be read or parsed
      counts as dirty. */
  datatype Tree =
    | ItemFile(looksDirty: bool)
    | Folder(children: seq<Tree>)
    | Unreadable
    | Vanished

  /** How the walk ends: filepath.SkipAll on a dirty item, an error the caller
      reads as dirty, or a not-exist error, which it reads as an empty tree. */
  datatype Ending = ReachedEnd | MetDirty | Failed | NotExist

  function Walk(t: Tree): Ending {
    match t
    case ItemFile(looksDirty) => if looksDirty then MetDirty else ReachedEnd
    case Folder(children) => WalkAll(children)
    case Unreadable => Failed
    case Vanished => NotExist
  }

  function WalkAll(ts: seq<Tree>): Ending {
    if ts == [] then ReachedEnd
    else
      var first := Walk(ts[0]);
      if first.ReachedEnd? then WalkAll(ts[1..]) else first
  }

  /** hasDirtyCacheItemsAt. */
  function HasDirtyItems(metaRoot: Tree): bool {
    Walk(metaRoot) in {MetDirty, Failed}
  }

  /** The leaves in walk order, the reference the walk is compared with. */
  function Leaves(t: Tree): seq<Tree> {
    if t.Folder? then LeavesOf(t.children) else [t]
  }

  function LeavesOf(ts: seq<Tree>): seq<Tree> {
    if ts == [] then [] else Leaves(ts[0]) + LeavesOf(ts[1..])
  }

  predicate Evidence(t: Tree) { t == ItemFile(true) || t.Unreadable? }

  predicate Quiet(t: Tree) { t == ItemFile(false) }

  /** The first leaf that is not a clean item decides how the walk ends. */
  predicate Decides(leaves: seq<Tree>, k: int) {
    0 <= k < |leaves| && !Quiet(leaves[k]) && forall j :: 0 <= j < k ==> Quiet(leaves[j])
  }

  ghost predicate EndsAs(leaves: seq<Tree>, e: Ending) {
    if forall k :: 0 <= k < |leaves| ==> Quiet(leaves[k]) then e.ReachedEnd?
    else exists k :: Decides(leaves, k) && !leaves[k].Folder? && e == Walk(leaves[k])
  }

  lemma EndsAsAppend(a: seq<Tree>, b: seq<Tree>, ea: Ending, eb: Ending)
    requires EndsAs(a, ea) && EndsAs(b, eb)
    ensures EndsAs(a + b, if ea.ReachedEnd? then eb else ea)
  {
    if forall k :: 0 <= k < |a| ==> Quiet(a[k]) {
      if exists k :: 0 <= k < |b| && !Quiet(b[k]) {
        var k :| Decides(b, k) && !b[k].Folder? && eb == Walk(b[k]);
        assert Decides(a + b, |a| + k);
        assert !Quiet((a + b)[|a| + k]);
      }
    } else {
      var k :| Decides(a, k) && !a[k].Folder? && ea == Walk(a[k]);
      assert !ea.ReachedEnd?;
      assert Decides(a + b, k);
      assert !Quiet((a + b)[k]);
    }
  }

  lemma {:induction false} WalkFollowsLeaves(t: Tree)
    ensures EndsAs(Leaves(t), Walk(t))
    decreases t, 0
  {
    match t {
      case Folder(children) => WalkAllFollowsLeaves(children);
      case _ => assert Quiet(t) || Decides([t], 0);
    }
  }

  lemma {:induction false} WalkAllFollowsLeaves(ts: seq<Tree>)
    ensures EndsAs(LeavesOf(ts), WalkAll(ts))
    decreases ts, 1
  {
    if ts != [] {
      WalkFollowsLeaves(ts[0]);
      WalkAllFollowsLeaves(ts[1..]);
      EndsAsAppend(Leaves(ts[0]), LeavesOf(ts[1..]), Walk(ts[0]), WalkAll(ts[1..]));
    }
  }

  /** Some leaf is evidence of unuploaded data, and no vanished directory precedes
      it in walk order. */
  ghost predicate EvidenceInTime(leaves: seq<Tree>) {
    exists k :: 0 <= k < |leaves| && Evidence(leaves[k]) && forall j :: 0 <= j < k ==> !leaves[j].Vanished?
  }

  /** The tree is reported dirty exactly when it holds evidence of unuploaded data
      that no vanished directory precedes. */
  lemma DirtyReportedExactly(metaRoot: Tree)
    ensures HasDirtyItems(metaRoot) <==> EvidenceInTime(Leaves(metaRoot))
  {
    var leaves := Leaves(metaRoot);
    WalkFollowsLeaves(metaRoot);
    if HasDirtyItems(metaRoot) {
      assert exists k :: 0 <= k < |leaves| && !Quiet(leaves[k]);
      var k :| Decides(leaves, k) && !leaves[k].Folder? && Walk(metaRoot) == Walk(leaves[k]);
      assert Evidence(leaves[k]);
    }
    if EvidenceInTime(leaves) {
      var k :| 0 <= k < |leaves| && Evidence(leaves[k]) && forall j :: 0 <= j < k ==> !leaves[j].Vanished?;
      assert !Quiet(leaves[k]);
      var d :| Decides(leaves, d) && !leaves[d].Folder? && Walk(metaRoot) == Walk(leaves[d]);
      assert d <= k;
    }
  }

  ghost predicate HasEvidence(leaves: seq<Tree>) {
    exists k :: 0 <= k < |leaves| && Evidence(leaves[k])
  }

  /** What a walk of this cache directory's metadata can meet: if some item looks
      dirty, evidence of it is somewhere in the tree. */
  ghost predicate Shows(walk: Tree, dir: CacheDirs.CacheDir) {
    CacheDirs.DirLooksDirty(dir) ==> HasEvidence(Leaves(walk))
  }

  /** hasDirtyCacheItemsAt answers "clean" for the directory. */
  ghost predicate SaysClean(walk: Tree, dir: CacheDirs.CacheDir) {
    Shows(walk, dir) && !HasDirtyItems(walk)
  }

  /** No directory vanishes under the walk. */
  ghost predicate Steady(walk: Tree) {
    NoneVanished(Leaves(walk))
  }

  ghost predicate NoneVanished(leaves: seq<Tree>) {
    forall k :: 0 <= k < |leaves| ==> !leaves[k].Vanished?
  }

  /** Evidence, if there is any, comes before every vanished directory. */
  ghost predicate EvidenceFirst(walk: Tree) {
    HasEvidence(Leaves(walk)) ==> EvidenceInTime(Leaves(walk))
  }

  /** A walk that says clean can be believed exactly then. */
  lemma WalkIsHonestExactly(walk: Tree)
    ensures (forall dir :: SaysClean(walk, dir) ==> !CacheDirs.DirLooksDirty(dir)) <==> EvidenceFirst(walk)
  {
    DirtyReportedExactly(walk);
    if !EvidenceFirst(walk) {
      var dir: CacheDirs.CacheDir := map[0 := CacheDirs.Item({}, true, CacheDirs.Sound)];
      assert 0 in dir && CacheDirs.LooksDirty(dir[0]);
      assert SaysClean(walk, dir) && CacheDirs.DirLooksDirty(dir);
    }
  }

  lemma SteadyWalkIsHonest(walk: Tree)
    requires Steady(walk)
    ensures EvidenceFirst(walk) && (HasDirtyItems(walk) <==> HasEvidence(Leaves(walk)))
  {
    DirtyReportedExactly(walk);
  }

  /** So a directory removed under the walk can hide a dirty item behind it. */
  lemma VanishedFolderHidesDirt()
    ensures !HasDirtyItems(Folder([Vanished, ItemFile(true)]))
  {
    assert WalkAll([Vanished, ItemFile(true)]) == NotExist;
  }

  // ---- the per-volume check and the scan ----

  datatype Entry = Entry(name: string, isDir: bool, tree: Tree)

  /** os.ReadDir of the vfsMeta directory. */
  datatype Listing = Listed(entries: seq<Entry>) | NoSuchDir | ListFailed

  predicate DirtyEntryOf(e: Entry, volumeID: string) {
    e.isDir && VolumeIdOf(e.name) == volumeID && HasDirtyItems(e.tree)
  }

  /** What both functions are about: some generation of the volume is dirty. */
  ghost predicate SomeGenerationDirty(entries: seq<Entry>, volumeID: string) {
    exists i :: 0 <= i < |entries| && DirtyEntryOf(entries[i], volumeID)
  }

  /** Some generation is found dirty, or the directory cannot be listed. */
  ghost predicate Reports(listing: Listing, volumeID: string) {
    volumeID != "" &&
    (listing.ListFailed? || (listing.Listed? && SomeGenerationDirty(listing.entries, volumeID)))
  }

  method HasUnuploadedDataAt(listing: Listing, volumeID: string) returns (found: bool)
    ensures found <==> Reports(listing, volumeID)
  {
    if volumeID == "" {
      return false;
    }
    match listing {
      case NoSuchDir => return false;
      case ListFailed => return true;
      case Listed(entries) =>
        for i := 0 to |entries|
          invariant forall j :: 0 <= j < i ==> !DirtyEntryOf(entries[j], volumeID)
        {
          var e := entries[i];
          if !e.isDir || VolumeIdOf(e.name) != volumeID {
            continue;
          }
          if HasDirtyItems(e.tree) {
            assert DirtyEntryOf(entries[i], volumeID);
            return true;
          }
        }
        return false;
    }
  }

  lemma OneMoreEntry(entries: seq<Entry>, i: nat)
    requires i < |entries|
    ensures forall u :: SomeGenerationDirty(entries[..i + 1], u) <==>
              SomeGenerationDirty(entries[..i], u) || DirtyEntryOf(entries[i], u)
  {
    forall u
      ensures SomeGenerationDirty(entries[..i + 1], u) <==>
              SomeGenerationDirty(entries[..i], u) || DirtyEntryOf(entries[i], u)
    {
      if DirtyEntryOf(entries[i], u) {
        assert entries[..i + 1][i] == entries[i];
      }
      if SomeGenerationDirty(entries[..i], u) {
        var j :| 0 <= j < i && DirtyEntryOf(entries[..i][j], u);
        assert entries[..i + 1][j] == entries[..i][j];
      }
    }
  }

  /** The scan's loop: each volume once, at its first dirty generation. */
  method DirtyVolumes(entries: seq<Entry>) returns (found: seq<string>)
    ensures Distinct(found) && forall v :: v in found <==> SomeGenerationDirty(entries, v)
  {
    found := [];
    var seen: set<string> := {};
    for i := 0 to |entries|
      invariant forall v :: v in seen <==> v in found
      invariant forall v :: v in found <==> SomeGenerationDirty(entries[..i], v)
      invariant Distinct(found)
    {
      var v := VolumeIdOf(entries[i].name);
      OneMoreEntry(entries, i);
      if entries[i].isDir && v !in seen && HasDirtyItems(entries[i].tree) {
        seen := seen + {v};
        found := found + [v];
      }
    }
    assert entries[..|entries|] == entries;
  }

  method VolumesWithUnuploadedDataAt(listing: Listing) returns (out: seq<string>)
    ensures Ascending(out)
    ensures forall v :: v in out <==> listing.Listed? && SomeGenerationDirty(listing.entries, v)
  {
    if !listing.Listed? {
      return [];
    }
    var found := DirtyVolumes(listing.entries);
    out := SortStrings(found);
    SortedDistinct(found, out);
  }

  /** Scan and query agree on every volume, unless the metadata directory exists
      and cannot be listed: then the query answers "unuploaded" for all and the
      scan names none. */
  method ScanAgreesWithQuery(listing: Listing, volumeID: string) returns (scan: seq<string>, query: bool)
    requires volumeID != ""
    ensures (volumeID in scan <==> query) <==> !listing.ListFailed?
  {
    scan := VolumesWithUnuploadedDataAt(listing);
    query := HasUnuploadedDataAt(listing, volumeID);
  }

  /** For plain volume IDs the check covers each generation by its own name. */
  lemma CheckCoversEveryGeneration(entries: seq<Entry>, volumeID: string, generation: nat, i: nat)
    requires PlainVolume(volumeID) && generation <= MAX_INT
    requires i < |entries| && entries[i].isDir && entries[i].name == VfsName(volumeID, generation)
    requires HasDirtyItems(entries[i].tree)
    ensures SomeGenerationDirty(entries, volumeID)
  {
    VolumeIdRoundTrip(volumeID, generation);
    assert DirtyEntryOf(entries[i], volumeID);
  }

  /** What listing the metadata of these cache directories can meet. */
  ghost predicate ShowsAll(listing: Listing, dirs: map<string, CacheDirs.CacheDir>) {
    forall name :: name in dirs && CacheDirs.DirLooksDirty(dirs[name]) && !listing.ListFailed? ==>
      listing.Listed? && exists i :: 0 <= i < |listing.entries| && IsEntryOf(listing.entries[i], name, dirs[name])
  }

  ghost predicate IsEntryOf(e: Entry, name: string, dir: CacheDirs.CacheDir) {
    e.isDir && e.name == name && Shows(e.tree, dir)
  }

  ghost predicate EvidenceFirstIn(listing: Listing) {
    listing.Listed? ==> forall i :: 0 <= i < |listing.entries| ==> EvidenceFirst(listing.entries[i].tree)
  }

  /** "Nothing unuploaded" covers every generation of a plain volume, each under its
      own name, as far as the walks met their evidence in time. */
  lemma CleanInEveryGeneration(listing: Listing, dirs: map<string, CacheDirs.CacheDir>, volumeID: string,
                               generation: nat)
    requires PlainVolume(volumeID) && generation <= MAX_INT && VfsName(volumeID, generation) in dirs
    requires ShowsAll(listing, dirs) && EvidenceFirstIn(listing) && !Reports(listing, volumeID)
    ensures !CacheDirs.DirLooksDirty(dirs[VfsName(volumeID, generation)])
  {
    var name := VfsName(volumeID, generation);
    if CacheDirs.DirLooksDirty(dirs[name]) {
      var i :| 0 <= i < |listing.entries| && IsEntryOf(listing.entries[i], name, dirs[name]);
      DirtyReportedExactly(listing.entries[i].tree);
      CheckCoversEveryGeneration(listing.entries, volumeID, generation, i);
    }
  }

  // ---- sort.Strings ----

  predicate Less(a: string, b: string) {
    b != "" && (a == "" || a[0] < b[0] || (a[0] == b[0] && Less(a[1..], b[1..])))
  }

  /** Said without recursion: after a common prefix, a ends first or has the smaller
      character. */
  lemma {:induction false} LessExactly(a: string, b: string)
    ensures Less(a, b) <==>
            exists k :: 0 <= k <= |a| && k < |b| && a[..k] == b[..k] && (k == |a| || a[k] < b[k])
  {
    if a == "" || b == "" || a[0] != b[0] {
      if b != "" && (a == "" || a[0] < b[0]) { assert a[..0] == b[..0]; }
      forall k | 0 < k <= |a| && k < |b|
        ensures a[..k] != b[..k]
      {
        assert a[..k][0] == a[0] && b[..k][0] == b[0];
      }
    } else {
      LessExactly(a[1..], b[1..]);
      if k :| 0 <= k <= |a[1..]| && k < |b[1..]| && a[1..][..k] == b[1..][..k]
              && (k == |a[1..]| || a[1..][k] < b[1..][k]) {
        assert a[..k + 1] == [a[0]] + a[1..][..k] && b[..k + 1] == [b[0]] + b[1..][..k];
      }
      if k :| 0 <= k <= |a| && k < |b| && a[..k] == b[..k] && (k == |a| || a[k] < b[k]) {
        assert k > 0;
        assert a[1..][..k - 1] == a[..k][1..] && b[1..][..k - 1] == b[..k][1..];
      }
    }
  }

  predicate Sorted(s: seq<string>) {
    forall i, j :: 0 <= i < j < |s| ==> s[i] == s[j] || Less(s[i], s[j])
  }

  /** Sorted and without duplicates. */
  predicate Ascending(s: seq<string>) {
    forall i, j :: 0 <= i < j < |s| ==> Less(s[i], s[j])
  }

  predicate Distinct(s: seq<string>) {
    forall i, j :: 0 <= i < j < |s| ==> s[i] != s[j]
  }

  lemma {:induction false} LessTotal(a: string, b: string)
    ensures a == b || Less(a, b) || Less(b, a)
  {
    if a != "" && b != "" && a[0] == b[0] {
      LessTotal(a[1..], b[1..]);
      assert a == [a[0]] + a[1..] && b == [b[0]] + b[1..];
    }
  }

  lemma {:induction false} LessTransitive(a: string, b: string, c: string)
    requires Less(a, b) && Less(b, c)
    ensures Less(a, c)
  {
    if a != "" && a[0] == b[0] == c[0] {
      LessTransitive(a[1..], b[1..], c[1..]);
    }
  }

  lemma InsertedInOrder(s: seq<string>, x: string, k: nat)
    requires Sorted(s) && k <= |s|
    requires forall j :: 0 <= j < k ==> Less(s[j], x)
    requires forall j :: k <= j < |s| ==> s[j] == x || Less(x, s[j])
    ensures Sorted(s[..k] + [x] + s[k..])
  {
    var t := s[..k] + [x] + s[k..];
    forall i, j | 0 <= i < j < |t|
      ensures t[i] == t[j] || Less(t[i], t[j])
    {
      assert t[i] == if i < k then s[i] else if i == k then x else s[i - 1];
      assert t[j] == if j < k then s[j] else if j == k then x else s[j - 1];
    }
  }

  method InsertString(s: seq<string>, x: string) returns (t: seq<string>)
    requires Sorted(s)
    ensures Sorted(t) && multiset(t) == multiset(s) + multiset{x}
  {
    var k := 0;
    while k < |s| && Less(s[k], x)
      invariant 0 <= k <= |s|
      invariant forall j :: 0 <= j < k ==> Less(s[j], x)
    {
      k := k + 1;
    }
    t := s[..k] + [x] + s[k..];
    forall j | k <= j < |s|
      ensures s[j] == x || Less(x, s[j])
    {
      LessTotal(s[k], x);
      if j > k && Less(x, s[k]) && Less(s[k], s[j]) { LessTransitive(x, s[k], s[j]); }
    }
    InsertedInOrder(s, x, k);
    assert s == s[..k] + s[k..];
  }

  method SortStrings(s: seq<string>) returns (t: seq<string>)
    ensures Sorted(t) && multiset(t) == multiset(s)
  {
    t := [];
    for i := 0 to |s|
      invariant Sorted(t) && multiset(t) == multiset(s[..i])
    {
      assert s[..i + 1] == s[..i] + [s[i]];
      t := InsertString(t, s[i]);
    }
    assert s[..|s|] == s;
  }

  lemma {:induction false} DistinctCountsOnce(s: seq<string>, x: string)
    requires Distinct(s)
    ensures multiset(s)[x] <= 1
  {
    if s != [] {
      var n := |s| - 1;
      assert s == s[..n] + [s[n]];
      DistinctCountsOnce(s[..n], x);
      assert s[n] !in s[..n];
    }
  }

  lemma CountedTwice(t: seq<string>, i: nat, j: nat)
    requires i < j < |t| && t[i] == t[j]
    ensures multiset(t)[t[i]] >= 2
  {
    assert t == t[..i] + [t[i]] + t[i + 1..j] + [t[j]] + t[j + 1..];
  }

  /** Sorting a sequence without duplicates gives a strictly ascending one. */
  lemma SortedDistinct(s: seq<string>, t: seq<string>)
    requires Distinct(s) && Sorted(t) && multiset(t) == multiset(s)
    ensures Ascending(t)
    ensures forall v :: v in t <==> v in s
  {
    forall i, j | 0 <= i < j < |t|
      ensures Less(t[i], t[j])
    {
      if t[i] == t[j] {
        CountedTwice(t, i, j);
        DistinctCountsOnce(s, t[i]);
      }
    }
    forall v
      ensures v in t <==> v in s
    {
      assert v in t <==> v in multiset(t);
      assert v in s <==> v in multiset(s);
    }
  }
}
