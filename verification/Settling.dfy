/** When a mount may settle on a generation: exactly when no other generation is
    dirty or open to writes and no manager of another one is registered
    (pkg/rclone/syncmanager.go, pkg/driver/node_s3.go). */
module Settling {
  import opened Basics
  import opened CacheDirs
  import opened NodeCache
  import opened Cluster
  import opened Runs
  import opened Hazards

  /** Each accepted write is in S3 or a cache, or was set aside before S3 had it. */
  ghost predicate NothingLost(c: Cluster) {
    forall p, w :: (p, w) in c.accepted ==> w in Object(c, p) || Cached(c, p, w) || (p, w) in c.stranded
  }

  /** Consumers see each of them where the assigned node stages the volume. */
  ghost predicate ViewsComplete(c: Cluster) {
    forall i: nat, g, p, w :: i < |c.nodes| && c.owner == Some(i) && Stages(c.nodes[i], g) && (p, w) in c.accepted ==>
      w in View(c, c.nodes[i], g, p) || (p, w) in c.stranded
  }

  ghost predicate SafeFrom(c: Cluster) {
    forall steps, c' :: Run(OrderlyRun, c, steps, c') ==> NothingLost(c') && ViewsComplete(c')
  }

  lemma HandoverInvIsSafe(c: Cluster)
    requires HandoverInv(c)
    ensures SafeFrom(c)
  {
    forall steps, c' | Run(OrderlyRun, c, steps, c')
      ensures NothingLost(c') && ViewsComplete(c')
    {
      HandoverRun(c, steps, c');
      forall p, w | (p, w) in c'.accepted
        ensures w in Object(c', p) || Cached(c', p, w) || (p, w) in c'.stranded
      {
        InS3OrCached(c', p, w);
      }
      forall i: nat, g, p, w | i < |c'.nodes| && c'.owner == Some(i) && Stages(c'.nodes[i], g) && (p, w) in c'.accepted
        ensures w in View(c', c'.nodes[i], g, p) || (p, w) in c'.stranded
      {
        StagedViewIsComplete(c', i, g, p, w);
      }
    }
  }

  // ---- beside a dirty generation ----

  lemma MountAddsNoDirt(n: Node, g: nat)
    ensures var n' := MountedNode(Idled(n), g);
            && (forall h, q :: DirtyAt(n', h, q) ==> DirtyAt(n, h, q) && VersionAt(n', h, q) == VersionAt(n, h, q))
            && (forall h, q :: h != g && DirtyAt(n, h, q) ==> DirtyAt(n', h, q))
  {
    IdledKeepsDirs(n);
  }

  /** A mount that has settled on g, and nothing of g is served yet. */
  ghost predicate SettledOn(c: Cluster, i: nat, g: nat) {
    i < |c.nodes| && c.owner == Some(i) && c.nodes[i].mounting == Named(g) && !Reachable(c.nodes[i], g)
  }

  lemma FinishSettled(c: Cluster, i: nat, g: nat) returns (steps: seq<Step>, c': Cluster)
    requires SettledOn(c, i, g)
    ensures Run(OrderlyRun, c, steps, c') && c' == Put(c, i, MountedNode(Idled(c.nodes[i]), g))
  {
    steps, c' := Idle(OrderlyRun, c, [], c, i);
    steps, c' := FinishMount(OrderlyRun, c, steps, c', i);
  }

  lemma UnsafeBesideDirt(c: Cluster, i: nat, g: nat, h: nat, p: FileId, w: WriteId)
    requires SettledOn(c, i, g) && DirtyAt(c.nodes[i], h, p) && h != g && Unseen(c, p, w)
    ensures !SafeFrom(c)
  {
    MountAddsNoDirt(c.nodes[i], g);
    var steps, c' := FinishSettled(c, i, g);
    StaysUnseen(c, c', i, p, w);
    steps, c' := StaleUploadIsPossible(OrderlyRun, c, steps, c', i, h, g, p, w);
    assert !NothingLost(c');
  }

  // ---- beside a generation consumers still reach ----

  lemma UnsafeBesideReachable(c: Cluster, i: nat, g: nat, h: nat, w: WriteId)
    requires SettledOn(c, i, g) && Reachable(c.nodes[i], h) && h != g && NoneDirty(c.nodes[i], g) && Unseen(c, 0, w)
    ensures !SafeFrom(c)
  {
    MountAddsNoDirt(c.nodes[i], g);
    var steps, mounted := FinishSettled(c, i, g);
    var n := mounted.nodes[i];
    var c': Cluster;
    steps, c' := OpenAndWrite(OrderlyRun, c, steps, mounted, i, h, 0, w);
    assert Dir(c'.nodes[i], g) == Dir(n, g) && !DirtyAt(n, g, 0);
    assert Stages(c'.nodes[i], g) && w !in View(c', c'.nodes[i], g, 0);
    assert !ViewsComplete(c');
  }

  // ---- beside a manager of another generation ----

  /** Unreadable metadata of a clean item can be read again. */
  lemma Readable(n: Node, m: nat, p: FileId)
    requires p in Dir(n, m) && !Dir(n, m)[p].dirty && NoneDirty(n, m)
    ensures Enabled(n, Corrupt(m, p, Sound))
    ensures var n' := Next(n, Corrupt(m, p, Sound));
            && n' == n.(dirs := n'.dirs) && Dir(n', m) == Dir(n, m)[p := Dir(n, m)[p].(health := Sound)]
            && NoneDirty(n', m) && forall h :: h != m ==> Dir(n', h) == Dir(n, h)
  {
    var n' := Next(n, Corrupt(m, p, Sound));
    assert forall q :: DirtyAt(n', m, q) ==> DirtyAt(n, m, q);
  }

  function Unreadable(dir: CacheDir): set<FileId> {
    set p | p in dir && dir[p].health.BadMeta?
  }

  lemma ReadOne(start: Cluster, steps: seq<Step>, c: Cluster, i: nat, m: nat, p: FileId)
    returns (steps': seq<Step>, c': Cluster)
    requires Run(OrderlyRun, start, steps, c) && i < |c.nodes| && NoneDirty(c.nodes[i], m) && c.nodes[i].evict.NoPass?
    requires p in Unreadable(Dir(c.nodes[i], m))
    ensures Run(OrderlyRun, start, steps', c') && |c'.nodes| == |c.nodes|
    ensures c' == Put(c, i, c.nodes[i].(dirs := c'.nodes[i].dirs)) && NoneDirty(c'.nodes[i], m)
    ensures Unreadable(Dir(c'.nodes[i], m)) == Unreadable(Dir(c.nodes[i], m)) - {p}
    ensures forall h :: h != m ==> Dir(c'.nodes[i], h) == Dir(c.nodes[i], h)
  {
    assert !DirtyAt(c.nodes[i], m, p);
    Readable(c.nodes[i], m, p);
    steps', c' := ApplyLocal(OrderlyRun, start, steps, c, i, Corrupt(m, p, Sound));
  }

  lemma {:induction false} ReadAgain(start: Cluster, steps: seq<Step>, c: Cluster, i: nat, m: nat)
    returns (steps': seq<Step>, c': Cluster)
    requires Run(OrderlyRun, start, steps, c) && i < |c.nodes| && NoneDirty(c.nodes[i], m) && c.nodes[i].evict.NoPass?
    ensures Run(OrderlyRun, start, steps', c') && |c'.nodes| == |c.nodes|
    ensures c' == Put(c, i, c.nodes[i].(dirs := c'.nodes[i].dirs))
    ensures !DirLooksDirty(Dir(c'.nodes[i], m)) && forall h :: h != m ==> Dir(c'.nodes[i], h) == Dir(c.nodes[i], h)
    decreases Unreadable(Dir(c.nodes[i], m))
  {
    var dir := Dir(c.nodes[i], m);
    if Unreadable(dir) == {} {
      steps', c' := steps, c;
      assert forall p :: p in dir ==> !DirtyAt(c.nodes[i], m, p) && p !in Unreadable(dir);
    } else {
      var p :| p in Unreadable(dir);
      steps', c' := ReadOne(start, steps, c, i, m, p);
      steps', c' := ReadAgain(start, steps', c', i, m);
    }
  }

  /** The node with generation g exposed. */
  function ExposedNode(n: Node, g: nat): Node {
    n.(dirs := n.dirs[g := Vetted(n, g)], mounting := Exposed(g), names := Some(g), home := Some(g),
       serving := n.serving[g := true])
  }

  lemma ExposeSettled(c: Cluster, i: nat, g: nat) returns (steps: seq<Step>, c': Cluster)
    requires SettledOn(c, i, g)
    ensures Run(OrderlyRun, c, steps, c') && c' == Put(c, i, ExposedNode(Idled(c.nodes[i]), g))
  {
    steps, c' := Idle(OrderlyRun, c, [], c, i);
    steps, c' := MountChecked(OrderlyRun, c, steps, c', i);
    steps, c' := MountExposed(OrderlyRun, c, steps, c', i, Saved);
  }

  lemma Abort(start: Cluster, steps: seq<Step>, c: Cluster, i: nat) returns (steps': seq<Step>, c': Cluster)
    requires Run(OrderlyRun, start, steps, c) && i < |c.nodes| && c.nodes[i].unmounts == map[]
    requires c.nodes[i].mounting.Exposed? && c.nodes[i].evict.NoPass?
    ensures Run(OrderlyRun, start, steps', c')
    ensures c' == Put(c, i, Without(c.nodes[i], c.nodes[i].mounting.gen).(mounting := NotMounting))
  {
    steps', c' := ApplyLocal(OrderlyRun, start, steps, c, i, AbortMount(false));
  }

  lemma OnlyItsOwnDir(n: Node, g: nat, p: FileId, w: WriteId, remote: set<WriteId>)
    ensures var written := OpenWritten(ExposedNode(Idled(n), g), g, p, w, remote);
            && written.mounting == Exposed(g) && written.unmounts == n.unmounts && written.manager == n.manager
            && written.evict.NoPass? && forall h :: h != g ==> Dir(written, h) == Dir(n, h)
  {
    IdledKeepsDirs(n);
  }

  /** The mount is exposed and then fails its last check: what was written meanwhile
      stays in its generation, and the old manager stays registered. */
  lemma AbortedAfterAWrite(c: Cluster, i: nat, g: nat, w: WriteId) returns (steps: seq<Step>, c': Cluster)
    requires SettledOn(c, i, g) && c.nodes[i].unmounts == map[] && Unseen(c, 0, w)
    ensures Run(OrderlyRun, c, steps, c') && |c'.nodes| == |c.nodes|
    ensures c' == Put(c, i, c'.nodes[i]).(accepted := c.accepted + {(0, w)})
    ensures var n, n' := c.nodes[i], c'.nodes[i];
            && n'.mounting.NotMounting? && n'.unmounts == map[] && n'.manager == n.manager
            && n'.evict.NoPass? && forall h :: h != g ==> Dir(n', h) == Dir(n, h)
  {
    steps, c' := ExposeSettled(c, i, g);
    steps, c' := OpenAndWrite(OrderlyRun, c, steps, c', i, g, 0, w);
    OnlyItsOwnDir(c.nodes[i], g, 0, w, Object(c, 0));
    steps, c' := Abort(c, steps, c', i);
  }

  lemma EndSlot(start: Cluster, steps: seq<Step>, c: Cluster, i: nat) returns (steps': seq<Step>, c': Cluster)
    requires Run(OrderlyRun, start, steps, c) && i < |c.nodes|
    requires c.nodes[i].mounting.NotMounting? && c.nodes[i].unmounts == map[]
    ensures Run(OrderlyRun, start, steps', c') && c' == Put(c, i, c.nodes[i].(slot := false))
  {
    steps', c' := steps, c;
    if c.nodes[i].slot {
      steps', c' := ApplyLocal(OrderlyRun, start, steps, c, i, ReleaseSlot);
    }
  }

  /** The old manager's unmount checks its own generation only, and succeeds. */
  lemma ReleasedPastAWrite(c: Cluster, i: nat, g: nat, m: nat, w: WriteId) returns (steps: seq<Step>, c': Cluster)
    requires SettledOn(c, i, g) && c.nodes[i].manager == Some(m) && m != g && NoneDirty(c.nodes[i], m)
    requires c.nodes[i].unmounts == map[] && Unseen(c, 0, w)
    ensures Run(OrderlyRun, c, steps, c') && |c'.nodes| == |c.nodes|
    ensures c' == Put(c, i, c'.nodes[i]).(accepted := c.accepted + {(0, w)}, owner := None)
  {
    steps, c' := AbortedAfterAWrite(c, i, g, w);
    assert forall p :: DirtyAt(c'.nodes[i], m, p) ==> DirtyAt(c.nodes[i], m, p);
    steps, c' := EndSlot(c, steps, c', i);
    assert Dir(c'.nodes[i], m) == Dir(c.nodes[i], m);
    steps, c' := ReadAgain(c, steps, c', i, m);
    steps, c' := Release(OrderlyRun, c, steps, c', i);
  }

  lemma UnsafeBesideManager(c: Cluster, i: nat, g: nat, m: nat, j: nat, w: WriteId)
    requires SettledOn(c, i, g) && c.nodes[i].manager == Some(m) && m != g && NoneDirty(c.nodes[i], m)
    requires c.nodes[i].unmounts == map[] && Unseen(c, 0, w)
    requires j < |c.nodes| && j != i && CleanNode(c.nodes[j])
    ensures !SafeFrom(c)
  {
    var steps, c' := ReleasedPastAWrite(c, i, g, m, w);
    var g': nat;
    steps, c', g' := StageElsewhere(OrderlyRun, c, steps, c', j);
    StagedThere(c.nodes[j], g', 0);
    assert Stages(c'.nodes[j], g') && w !in View(c', c'.nodes[j], g', 0);
    assert !ViewsComplete(c');
  }

  // ---- exactly when ----

  lemma NamedOnly(c: Cluster, i: nat, g: nat)
    requires i < |c.nodes| && Enabled(c.nodes[i], Name(g))
    ensures AfterLocal(c, i, Name(g)) == Put(c, i, c.nodes[i].(mounting := Named(g)))
  {
    assert StrandedBy(c, i, Name(g)) == {} && c.stranded + {} == c.stranded;
  }

  /** Where an orderly run has got to, at most one generation is dirty or reachable,
      and a registered manager is of that one. */
  lemma OneHome(n: Node, g: nat)
    requires OrderlyInv(n) && !MaySettle(n, g)
    ensures NoneDirty(n, g) && !Reachable(n, g)
    ensures (forall h: nat, p :: DirtyAt(n, h, p) ==> h == g) && ReachableOnly(n, g) ==>
              n.manager.Some? && n.manager != Some(g) && NoneDirty(n, n.manager.value)
  {
    if h: nat, p :| DirtyAt(n, h, p) && h != g {
      assert n.home == Some(h);
    } else if !ReachableOnly(n, g) {
      var h :| h in n.serving && n.serving[h] && h != g;
      assert n.home == Some(h);
    } else {
      assert n.manager.Some? && n.manager != Some(g) && HomeOrNone(n, n.manager.value);
    }
  }

  lemma UnsafeOtherwise(c: Cluster, i: nat, g: nat, j: nat, w: WriteId)
    requires HandoverInv(c) && i < |c.nodes| && c.owner == Some(i) && j < |c.nodes| && j != i
    requires Enabled(c.nodes[i], Name(g)) && !MaySettle(c.nodes[i], g) && forall p :: Unseen(c, p, w)
    ensures !SafeFrom(AfterLocal(c, i, Name(g)))
  {
    var n, c1 := c.nodes[i], AfterLocal(c, i, Name(g));
    NamedOnly(c, i, g);
    OneHome(n, g);
    assert c1.nodes[i] == n.(mounting := Named(g));
    assert forall h :: Dir(c1.nodes[i], h) == Dir(n, h);
    if h: nat, p :| DirtyAt(n, h, p) && h != g {
      StaysUnseen(c, c1, i, p, w);
      UnsafeBesideDirt(c1, i, g, h, p, w);
    } else {
      StaysUnseen(c, c1, i, 0, w);
      if !ReachableOnly(n, g) {
        var h :| h in n.serving && n.serving[h] && h != g;
        UnsafeBesideReachable(c1, i, g, h, w);
      } else {
        UnsafeBesideManager(c1, i, g, n.manager.value, j, w);
      }
    }
  }

  /** Exactly when a mount may settle on generation g in an orderly run: every
      orderly continuation keeps each accepted write in S3 or a cache and shows it to
      consumers, here and on the next node, if and only if no other generation is
      dirty or open to writes and no manager of another one is registered. */
  lemma SettlingAGenerationIsSafeExactly(size: nat, steps: seq<Step>, c: Cluster, i: nat, g: nat, j: nat, w: WriteId)
    requires Run(OrderlyRun, Init(size), steps, c) && i < |c.nodes| && c.owner == Some(i) && j < |c.nodes| && j != i
    requires Enabled(c.nodes[i], Name(g)) && forall p :: Unseen(c, p, w)
    ensures SafeFrom(AfterLocal(c, i, Name(g))) <==> MaySettle(c.nodes[i], g)
  {
    HandoverRun(Init(size), steps, c);
    if MaySettle(c.nodes[i], g) {
      HandoverLocal(c, i, Name(g));
      HandoverInvIsSafe(AfterLocal(c, i, Name(g)));
    } else {
      UnsafeOtherwise(c, i, g, j, w);
    }
  }

  // ---- each condition on its own ----

  lemma BeginRemount(steps: seq<Step>, c: Cluster) returns (steps': seq<Step>, c': Cluster)
    requires Run(OrderlyRun, Init(2), steps, c) && |c.nodes| == 2 && c.owner == Some(0)
    requires c.nodes[0].mounting.NotMounting? && c.nodes[0].unmounts == map[]
    ensures Run(OrderlyRun, Init(2), steps', c')
    ensures c' == Put(c, 0, c.nodes[0].(mounting := Created(ReadGen(c.nodes[0], true))))
  {
    steps', c' := ApplyLocal(OrderlyRun, Init(2), steps, c, 0, BeginMount(true));
  }

  /** Generation 0 was mounted, its FUSE died, and a remount has read the map: nothing
      is dirty, nothing is served, and the old manager is still registered. */
  const OLD_MANAGER := Mounted0(map[], {}).(serving := map[], mounting := Created(0))

  lemma RemountBesideManager() returns (steps: seq<Step>, c: Cluster)
    ensures Run(OrderlyRun, Init(2), steps, c)
    ensures c == Cluster([OLD_MANAGER, EMPTY_NODE], Some(0), map[], {}, {}, {})
  {
    steps, c := Mount0(OrderlyRun);
    assert Without(c.nodes[0], 0) == c.nodes[0].(serving := map[]);
    steps, c := ApplyLocal(OrderlyRun, Init(2), steps, c, 0, VfsGone(0));
    steps, c := BeginRemount(steps, c);
    assert c.nodes == [OLD_MANAGER, EMPTY_NODE];
  }

  /** So settling on another generation is unsafe although no other one is dirty or
      served. */
  lemma AnOldManagerIsEnough() returns (steps: seq<Step>, c: Cluster)
    ensures Run(OrderlyRun, Init(2), steps, c) && |c.nodes| == 2 && Enabled(c.nodes[0], Name(1))
    ensures CleanNode(c.nodes[0]) && Unreachable(c.nodes[0]) && !SafeFrom(AfterLocal(c, 0, Name(1)))
  {
    steps, c := RemountBesideManager();
    NothingSeen(c);
    SettlingAGenerationIsSafeExactly(2, steps, c, 0, 1, 1, 100);
  }

  /** Generation 0 is still served, its manager dropped after a shutdown that ran out
      of time, and a remount has read the map. */
  const OLD_VFS := Mounted0(map[], {}).(manager := None, mounting := Created(0))

  lemma RemountBesideVfs() returns (steps: seq<Step>, c: Cluster)
    ensures Run(OrderlyRun, Init(2), steps, c)
    ensures c == Cluster([OLD_VFS, EMPTY_NODE], Some(0), map[], {}, {}, {})
  {
    steps, c := Mount0(OrderlyRun);
    assert Surviving(c.nodes[0], {0}) == c.nodes[0];
    steps, c := ApplyLocal(OrderlyRun, Init(2), steps, c, 0, DropManager({0}));
    steps, c := BeginRemount(steps, c);
    assert c.nodes == [OLD_VFS, EMPTY_NODE];
  }

  /** So it is unsafe although no other generation is dirty and no manager is left. */
  lemma AnOldVfsIsEnough() returns (steps: seq<Step>, c: Cluster)
    ensures Run(OrderlyRun, Init(2), steps, c) && |c.nodes| == 2 && Enabled(c.nodes[0], Name(1))
    ensures CleanNode(c.nodes[0]) && c.nodes[0].manager.None? && !SafeFrom(AfterLocal(c, 0, Name(1)))
  {
    steps, c := RemountBesideVfs();
    NothingSeen(c);
    assert 0 in c.nodes[0].serving && c.nodes[0].serving[0];
    SettlingAGenerationIsSafeExactly(2, steps, c, 0, 1, 1, 100);
  }

  lemma NothingSeen(c: Cluster)
    requires |c.nodes| == 2 && c.nodes[1] == EMPTY_NODE && c.accepted == {} && c.stranded == {} && c.objects == map[]
    requires c.nodes[0].dirs == map[0 := map[]] && c.nodes[0].quarantine == {}
    ensures CleanNode(c.nodes[0]) && forall p :: Unseen(c, p, 100)
  {
    assert forall g :: Dir(c.nodes[0], g) == map[] && Dir(c.nodes[1], g) == map[];
  }
}
