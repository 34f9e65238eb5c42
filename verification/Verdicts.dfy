/** What an unmount and an unstage conclude, and when that may be acted on
    (pkg/rclone/syncmanager.go, pkg/driver/node_s3.go). Between the check and what
    follows it there must be no evidence the walk missed and no VFS left that
    consumers can write through. */
module Verdicts {
  import opened Basics
  import opened CacheDirs
  import opened NodeCache
  import opened Cluster
  import opened Runs
  import opened Hazards
  import opened Races
  import DirtyScan

  // ---- a directory that vanishes under the walk ----

  const VANISHING := DirtyScan.Folder([DirtyScan.Vanished, DirtyScan.ItemFile(true)])

  lemma VanishingWalk(dir: CacheDir)
    ensures DirtyScan.SaysClean(VANISHING, dir)
  {
    DirtyScan.VanishedFolderHidesDirt();
    assert DirtyScan.Leaves(VANISHING) == [DirtyScan.Vanished, DirtyScan.ItemFile(true)];
    assert DirtyScan.Evidence(DirtyScan.Leaves(VANISHING)[1]);
  }

  lemma DirtyUnmountBegun(steps: seq<Step>, c: Cluster) returns (steps': seq<Step>, c': Cluster)
    requires Run(AnyRun, Init(2), steps, c) && |c.nodes| == 2
    requires c.nodes[0] == Mounted0(map[7 := WRITE_100], {(0, 7)})
    ensures Run(AnyRun, Init(2), steps', c')
    ensures c' == Put(c, 0, c.nodes[0].(unmounts := map[0 := Unmount(0, FastPath, Waiting)]))
  {
    steps', c' := ApplyLocal(AnyRun, Init(2), steps, c, 0, BeginUnmount(0, FastPath));
    assert c'.nodes[0].unmounts == map[0 := Unmount(0, FastPath, Waiting)];
  }

  lemma ShutWithDirt() returns (steps: seq<Step>, c: Cluster)
    ensures Run(AnyRun, Init(2), steps, c)
    ensures c == Cluster([Unmounting(Mounted0(map[7 := WRITE_100], {}), Down(true)), EMPTY_NODE], Some(0), map[], {},
                         {(7, 100)}, {})
  {
    steps, c := Write100(AnyRun);
    steps, c := DirtyUnmountBegun(steps, c);
    assert Surviving(c.nodes[0], {}) == c.nodes[0].(serving := map[], open := {});
    steps, c := ApplyLocal(AnyRun, Init(2), steps, c, 0, Shut(0, true, {}));
    assert c.nodes[0].unmounts == map[0 := Unmount(0, FastPath, Down(true))];
    assert c.nodes == [Unmounting(Mounted0(map[7 := WRITE_100], {}), Down(true)), EMPTY_NODE];
  }

  lemma JudgedWithDirt() returns (steps: seq<Step>, c: Cluster)
    ensures Run(AnyRun, Init(2), steps, c)
    ensures c == Cluster([Unmounting(Mounted0(map[7 := WRITE_100], {}), Judged(true)), EMPTY_NODE], Some(0), map[], {},
                         {(7, 100)}, {})
  {
    steps, c := ShutWithDirt();
    VanishingWalk(Dir(c.nodes[0], 0));
    steps, c := ApplyLocal(AnyRun, Init(2), steps, c, 0, Judge(0, true, VANISHING));
    assert c.nodes[0].unmounts == map[0 := Unmount(0, FastPath, Judged(true))];
    assert c.nodes == [Unmounting(Mounted0(map[7 := WRITE_100], {}), Judged(true)), EMPTY_NODE];
  }

  /** A dirty item behind a vanished directory is not seen, and the cache is
      reclaimed with it. */
  lemma WalkMissesAWrite() returns (steps: seq<Step>, c: Cluster)
    ensures Run(AnyRun, Init(2), steps, c) && Lost(c, 7, 100)
  {
    steps, c := JudgedWithDirt();
    steps, c := ApplyLocal(AnyRun, Init(2), steps, c, 0, Reclaim(0, {}));
    assert Dir(c.nodes[0], 0) == map[];
    NowhereLeft(c, 7, 100);
  }

  lemma DirtIsReclaimed(walk: DirtyScan.Tree)
    requires !DirtyScan.HasDirtyItems(walk) && DirtyScan.HasEvidence(DirtyScan.Leaves(walk))
    ensures var n := Unmounting(Mounted0(map[7 := WRITE_100], {}), Down(true));
            Reclaims(n, 0, walk) && !KeepsDirty(n, Next(Next(n, Judge(0, true, walk)), Reclaim(0, {})), {})
  {
    var n := Unmounting(Mounted0(map[7 := WRITE_100], {}), Down(true));
    assert Dir(n, 0) == map[7 := WRITE_100] && DirtyAt(n, 0, 7);
    assert !DirtyAt(Next(Next(n, Judge(0, true, walk)), Reclaim(0, {})), 0, 7);
  }

  /** Exactly when an unmount's verdict may be acted on: after a walk that says
      clean, reclaiming the directory destroys no dirty item, whatever the
      directory holds, if and only if the walk met any evidence before the first
      vanished directory. */
  lemma ReclaimIsSafeExactly(walk: DirtyScan.Tree)
    ensures (forall n: Node, id: nat :: Reclaims(n, id, walk) ==>
               KeepsDirty(n, Next(Next(n, Judge(id, true, walk)), Reclaim(id, {})), {}))
            <==> DirtyScan.EvidenceFirst(walk)
  {
    DirtyScan.DirtyReportedExactly(walk);
    if !DirtyScan.EvidenceFirst(walk) {
      DirtIsReclaimed(walk);
    } else {
      forall n: Node, id: nat | Reclaims(n, id, walk)
        ensures KeepsDirty(n, Next(Next(n, Judge(id, true, walk)), Reclaim(id, {})), {})
      {
        ReclaimSpares(n, id, walk);
      }
    }
  }

  /** The unmount is past its shutdown and the walk of its generation says clean. */
  ghost predicate Reclaims(n: Node, id: nat, walk: DirtyScan.Tree) {
    && id in n.unmounts && n.unmounts[id].stage == Down(true) && !n.unmounts[id].purpose.Unmanaged?
    && DirtyScan.SaysClean(walk, Dir(n, n.unmounts[id].gen))
  }

  lemma ReclaimSpares(n: Node, id: nat, walk: DirtyScan.Tree)
    requires Reclaims(n, id, walk) && DirtyScan.EvidenceFirst(walk)
    ensures KeepsDirty(n, Next(Next(n, Judge(id, true, walk)), Reclaim(id, {})), {})
  {
    DirtyScan.DirtyReportedExactly(walk);
    var g := n.unmounts[id].gen;
    var judged := Next(n, Judge(id, true, walk));
    assert judged.dirs == n.dirs;
    assert forall p :: DirtyAt(n, g, p) ==> LooksDirty(Dir(n, g)[p]);
    OneDirKeepsDirty(n, Next(judged, Reclaim(id, {})), g);
  }

  // ---- a VFS that outlives its shutdown ----

  /** Acting on the verdict destroys no dirty item. */
  ghost predicate VerdictHolds(n: Node, id: nat) {
    Enabled(n, Reclaim(id, {})) && KeepsDirty(n, Next(n, Reclaim(id, {})), {})
  }

  lemma VerdictHoldsExactly(n: Node, id: nat)
    requires Enabled(n, Reclaim(id, {}))
    ensures VerdictHolds(n, id) <==> NoneDirty(n, n.unmounts[id].gen)
  {
    var g, n' := n.unmounts[id].gen, Next(n, Reclaim(id, {}));
    assert Dir(n', g) == map[];
    if NoneDirty(n, g) {
      OneDirKeepsDirty(n, n', g);
    }
  }

  lemma WriteBeforeReclaim(n: Node, id: nat, h: nat, p: FileId, w: WriteId, remote: set<WriteId>)
    requires Enabled(n, Reclaim(id, {})) && NoneDirty(n, n.unmounts[id].gen)
    ensures VerdictHolds(Written(n, h, p, w, remote), id) <==> h != n.unmounts[id].gen
  {
    var written := Written(n, h, p, w, remote);
    assert Enabled(written, Reclaim(id, {}));
    VerdictHoldsExactly(written, id);
    if h == n.unmounts[id].gen {
      assert DirtyAt(written, h, p);
    } else {
      assert forall q :: DirtyAt(written, n.unmounts[id].gen, q) ==> DirtyAt(n, n.unmounts[id].gen, q);
    }
  }

  lemma JudgedNode(n: Node, id: nat, walk: DirtyScan.Tree)
    requires Reclaims(n, id, walk) && DirtyScan.Steady(walk)
    ensures var judged := Next(n, Judge(id, true, walk));
            && judged.serving == n.serving && Enabled(judged, Reclaim(id, {}))
            && judged.unmounts[id].gen == n.unmounts[id].gen && NoneDirty(judged, n.unmounts[id].gen)
  {
    CleanWalkMeansNoneDirty(n, n.unmounts[id].gen, walk);
    var judged, g := Next(n, Judge(id, true, walk)), n.unmounts[id].gen;
    assert forall p :: DirtyAt(judged, g, p) ==> DirtyAt(n, g, p);
  }

  /** Exactly when an unmount may act on a true verdict: whatever consumers write
      between the check and the reclaim survives if and only if the shutdown has left
      them no way to the generation. */
  lemma WriteBeforeReclaimIsSafeExactly(n: Node, id: nat, walk: DirtyScan.Tree)
    requires Reclaims(n, id, walk) && DirtyScan.Steady(walk)
    ensures (forall h, p, w, remote :: Reachable(n, h) ==>
               VerdictHolds(Written(Next(n, Judge(id, true, walk)), h, p, w, remote), id))
            <==> !Reachable(n, n.unmounts[id].gen)
  {
    JudgedNode(n, id, walk);
    var judged, g := Next(n, Judge(id, true, walk)), n.unmounts[id].gen;
    forall h: nat, p: FileId, w: WriteId, remote: set<WriteId>
      ensures VerdictHolds(Written(judged, h, p, w, remote), id) <==> h != g
    {
      WriteBeforeReclaim(judged, id, h, p, w, remote);
    }
    if Reachable(n, g) {
      assert !VerdictHolds(Written(judged, g, 0, 0, {}), id);
    }
  }

  /** Mounted on generation 0, with a remount begun that first unmounts. */
  function Remounting(stage: UnmountStage): Node {
    Mounted0(map[], {}).(mounting := Created(0), unmounts := map[0 := Unmount(0, PreMount, stage)])
  }

  lemma RemountBegun() returns (steps: seq<Step>, c: Cluster)
    ensures Run(AnyRun, Init(2), steps, c)
    ensures c == Cluster([Remounting(Waiting), EMPTY_NODE], Some(0), map[], {}, {}, {})
  {
    steps, c := Mount0(AnyRun);
    steps, c := ApplyLocal(AnyRun, Init(2), steps, c, 0, BeginMount(true));
    steps, c := ApplyLocal(AnyRun, Init(2), steps, c, 0, BeginUnmount(0, PreMount));
    assert c.nodes[0].unmounts == map[0 := Unmount(0, PreMount, Waiting)];
    assert c.nodes == [Remounting(Waiting), EMPTY_NODE];
  }

  /** mount/unmount runs out of time. */
  lemma RemountDown() returns (steps: seq<Step>, c: Cluster)
    ensures Run(AnyRun, Init(2), steps, c)
    ensures c == Cluster([Remounting(Down(true)), EMPTY_NODE], Some(0), map[], {}, {}, {})
  {
    steps, c := RemountBegun();
    assert Surviving(c.nodes[0], {0}) == c.nodes[0];
    steps, c := ApplyLocal(AnyRun, Init(2), steps, c, 0, Shut(0, true, {0}));
    assert c.nodes[0].unmounts == map[0 := Unmount(0, PreMount, Down(true))] && c.nodes[0].serving == map[0 := true];
    assert c.nodes == [Remounting(Down(true)), EMPTY_NODE];
  }

  /** The directory is found clean. */
  lemma RemountJudged() returns (steps: seq<Step>, c: Cluster)
    ensures Run(AnyRun, Init(2), steps, c)
    ensures c == Cluster([Remounting(Judged(true)), EMPTY_NODE], Some(0), map[], {}, {}, {})
  {
    steps, c := RemountDown();
    assert Dir(c.nodes[0], 0) == map[];
    NoItemsWalk(map[]);
    steps, c := ApplyLocal(AnyRun, Init(2), steps, c, 0, Judge(0, true, NO_ITEMS));
    assert c.nodes[0].unmounts == map[0 := Unmount(0, PreMount, Judged(true))];
    assert c.nodes == [Remounting(Judged(true)), EMPTY_NODE];
  }

  lemma WrittenAfterVerdict() returns (steps: seq<Step>, c: Cluster)
    ensures Run(AnyRun, Init(2), steps, c) && |c.nodes| == 2 && c.nodes[1] == EMPTY_NODE
    ensures c.nodes[0].unmounts == map[0 := Unmount(0, PreMount, Judged(true))] && c.nodes[0].dirs.Keys == {0}
    ensures c.nodes[0].quarantine == {} && Object(c, 7) == {} && (7, 100) in c.accepted
  {
    steps, c := RemountJudged();
    steps, c := OpenAndWrite(AnyRun, Init(2), steps, c, 0, 0, 7, 100);
  }

  /** A consumer still bound to the surviving VFS writes, and the cache is reclaimed
      under it. */
  lemma UnmountTakesALaterWrite() returns (steps: seq<Step>, c: Cluster)
    ensures Run(AnyRun, Init(2), steps, c) && Lost(c, 7, 100)
  {
    steps, c := WrittenAfterVerdict();
    steps, c := ApplyLocal(AnyRun, Init(2), steps, c, 0, Reclaim(0, {}));
    assert Dir(c.nodes[0], 0) == map[];
    NowhereLeft(c, 7, 100);
  }

  // ---- unstaging without a manager ----

  /** Exactly when "nothing unuploaded" may be reported: the node is still clean
      after whatever consumers write meanwhile if and only if they reach no VFS. */
  lemma CleanReportIsSafeExactly(n: Node, id: nat, walks: map<nat, DirtyScan.Tree>)
    requires Enabled(n, JudgeAll(id, true, walks)) && forall g :: g in walks ==> DirtyScan.Steady(walks[g])
    ensures CleanNode(n)
    ensures (forall h, p, w, remote :: Reachable(n, h) ==>
               CleanNode(Written(Next(n, JudgeAll(id, true, walks)), h, p, w, remote)))
            <==> Unreachable(n)
  {
    NothingUnuploadedIsClean(n, walks);
    var judged := Next(n, JudgeAll(id, true, walks));
    if !Unreachable(n) {
      var h :| h in n.serving && n.serving[h];
      assert Reachable(n, h) && DirtyAt(Written(judged, h, 0, 0, {}), h, 0);
    }
  }

  /** Mounted on generation 0, the manager dropped while its VFS outlives the
      shutdown, and an unstage under way. */
  function Unmanaging(stage: UnmountStage): Node {
    Mounted0(map[], {}).(manager := None, unmounts := map[0 := Unmount(0, Unmanaged, stage)])
  }

  lemma ManagerDropped() returns (steps: seq<Step>, c: Cluster)
    ensures Run(AnyRun, Init(2), steps, c)
    ensures c == Cluster([Mounted0(map[], {}).(manager := None), EMPTY_NODE], Some(0), map[], {}, {}, {})
  {
    steps, c := Mount0(AnyRun);
    assert Surviving(c.nodes[0], {0}) == c.nodes[0];
    steps, c := ApplyLocal(AnyRun, Init(2), steps, c, 0, DropManager({0}));
    assert c.nodes == [Mounted0(map[], {}).(manager := None), EMPTY_NODE];
  }

  lemma UnmanagedBegun() returns (steps: seq<Step>, c: Cluster)
    ensures Run(AnyRun, Init(2), steps, c)
    ensures c == Cluster([Unmanaging(Waiting), EMPTY_NODE], Some(0), map[], {}, {}, {})
  {
    steps, c := ManagerDropped();
    steps, c := ApplyLocal(AnyRun, Init(2), steps, c, 0, BeginUnmount(0, Unmanaged));
    assert c.nodes[0].unmounts == map[0 := Unmount(0, Unmanaged, Waiting)];
    assert c.nodes == [Unmanaging(Waiting), EMPTY_NODE];
  }

  lemma UnmanagedJudged() returns (steps: seq<Step>, c: Cluster)
    ensures Run(AnyRun, Init(2), steps, c)
    ensures c == Cluster([Unmanaging(Judged(true)), EMPTY_NODE], Some(0), map[], {}, {}, {})
  {
    steps, c := UnmanagedBegun();
    NoItemsWalk(map[]);
    assert NothingUnuploaded(c.nodes[0], map[0 := NO_ITEMS]);
    steps, c := ApplyLocal(AnyRun, Init(2), steps, c, 0, JudgeAll(0, true, map[0 := NO_ITEMS]));
    assert c.nodes[0].unmounts == map[0 := Unmount(0, Unmanaged, Judged(true))];
    assert c.nodes == [Unmanaging(Judged(true)), EMPTY_NODE];
  }

  lemma WrittenAfterReport() returns (steps: seq<Step>, c: Cluster)
    ensures Run(AnyRun, Init(2), steps, c) && |c.nodes| == 2 && c.nodes[1] == EMPTY_NODE && c.owner == Some(0)
    ensures c.objects == map[] && (7, 100) in c.accepted && c.nodes[0].quarantine == {}
    ensures c.nodes[0].unmounts == map[0 := Unmount(0, Unmanaged, Judged(true))]
  {
    steps, c := UnmanagedJudged();
    steps, c := OpenAndWrite(AnyRun, Init(2), steps, c, 0, 0, 7, 100);
  }

  lemma ReportedPastAWrite() returns (steps: seq<Step>, c: Cluster)
    ensures Run(AnyRun, Init(2), steps, c) && |c.nodes| == 2 && c.nodes[1] == EMPTY_NODE && c.owner == None
    ensures c.objects == map[] && (7, 100) in c.accepted && c.nodes[0].quarantine == {}
  {
    steps, c := WrittenAfterReport();
    steps, c := Then(AnyRun, Init(2), steps, c, Local(0, FinishUnmount(0)));
  }

  /** A write through the surviving VFS after the check: the unstage succeeds, and
      the next node stages the volume without it. */
  lemma CleanReportHidesALaterWrite() returns (steps: seq<Step>, c: Cluster, g: nat)
    ensures Run(AnyRun, Init(2), steps, c) && |c.nodes| == 2
    ensures c.owner == Some(1) && Stages(c.nodes[1], g)
    ensures (7, 100) in c.accepted && 100 !in View(c, c.nodes[1], g, 7) && !Quarantined(c, 100)
  {
    steps, c := ReportedPastAWrite();
    steps, c, g := StageElsewhere(AnyRun, Init(2), steps, c, 1);
    StagedThere(EMPTY_NODE, g, 7);
    assert Dir(EMPTY_NODE, g) == map[];
  }
}
