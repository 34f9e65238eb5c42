/** Runs in which the driver does not meet the strong claims, and the exact
    conditions under which it does. */
module Hazards {
  import opened Basics
  import opened CacheDirs
  import opened NodeCache
  import opened Cluster
  import opened Runs

  /** The write was accepted and is nowhere any more. */
  ghost predicate Lost(c: Cluster, p: FileId, w: WriteId) {
    (p, w) in c.accepted && w !in Object(c, p) && !Cached(c, p, w) && !Quarantined(c, w)
  }

  // ---- a dirty generation left behind ----

  /** Node j after a restart of the driver there. */
  function Restarted(n: Node): Node {
    Node(n.dirs, if n.torn then None else n.names, false, n.quarantine, map[], None, NotMounting, map[], false, {},
         NoPass, None, n.home)
  }

  lemma Restart(rule: Rule, start: Cluster, steps: seq<Step>, c: Cluster, j: nat)
    returns (steps': seq<Step>, c': Cluster)
    requires Run(rule, start, steps, c) && j < |c.nodes|
    ensures Run(rule, start, steps', c') && c' == Put(c, j, Restarted(c.nodes[j]))
  {
    steps', c' := ApplyLocal(rule, start, steps, c, j, Crash);
  }

  lemma RestartedIsReady(n: Node)
    ensures ReadGen(Restarted(n), true) == ReadGen(n, true)
    ensures CleanNode(n) ==> MaySettle(Restarted(n), ReadGen(n, true))
  {
    assert forall h: nat, p :: DirtyAt(Restarted(n), h, p) ==> DirtyAt(n, h, p);
  }

  /** With the volume released, node j restarts and stages it on the generation its
      map leads to. */
  lemma StageElsewhere(rule: Rule, start: Cluster, steps: seq<Step>, c: Cluster, j: nat)
    returns (steps': seq<Step>, c': Cluster, g: nat)
    requires Run(rule, start, steps, c) && j < |c.nodes| && c.owner == None
    requires rule.OrderlyRun? ==> CleanNode(c.nodes[j])
    ensures Run(rule, start, steps', c') && g == ReadGen(c.nodes[j], true)
    ensures c' == Put(c, j, MountedNode(Restarted(c.nodes[j]), g)).(owner := Some(j))
  {
    g := ReadGen(c.nodes[j], true);
    steps', c' := Restart(rule, start, steps, c, j);
    steps', c' := Then(rule, start, steps', c', Assign(j));
    RestartedIsReady(c.nodes[j]);
    steps', c' := MountAt(rule, start, steps', c', j, g);
  }

  lemma StagedThere(n: Node, g: nat, p: FileId)
    ensures Stages(MountedNode(Restarted(n), g), g)
    ensures DirtyAt(MountedNode(Restarted(n), g), g, p) ==> DirtyAt(n, g, p)
  {
    assert Dir(Restarted(n), g) == Dir(n, g);
  }

  /** An unforced unstage of node i that succeeds: only its own node changes. */
  lemma Release(rule: Rule, start: Cluster, steps: seq<Step>, c: Cluster, i: nat)
    returns (steps': seq<Step>, c': Cluster)
    requires Run(rule, start, steps, c) && ReadyToUnmount(c, i)
    ensures Run(rule, start, steps', c') && |c'.nodes| == |c.nodes| && c'.owner == None
    ensures c' == Put(c, i, c'.nodes[i]).(owner := None) && c'.nodes[i].quarantine == c.nodes[i].quarantine
  {
    steps', c' := Idle(rule, start, steps, c, i);
    steps', c' := FastUnmount(rule, start, steps', c', i);
  }

  /** Whatever run led there: a clean mounted generation beside a dirty abandoned
      one can always go on to a hand-over that hides the write. The unstage reports
      success, no force involved, and the next node stages the volume without it. */
  lemma DirtyGenerationBehindIsUnsafe(rule: Rule, start: Cluster, steps: seq<Step>, c: Cluster, i: nat, j: nat,
                                      p: FileId, w: WriteId)
    returns (steps': seq<Step>, c': Cluster, g: nat)
    requires !rule.OrderlyRun? && Run(rule, start, steps, c) && ReadyToUnmount(c, i)
    requires (p, w) in c.accepted && w !in Object(c, p)
    requires j != i && j < |c.nodes| && !DirtyAt(c.nodes[j], ReadGen(c.nodes[j], true), p)
    ensures Run(rule, start, steps', c') && |c'.nodes| == |c.nodes| && c'.owner == Some(j)
    ensures Stages(c'.nodes[j], g) && w !in View(c', c'.nodes[j], g, p)
    ensures (p, w) in c'.accepted && forall k :: 0 <= k < |c.nodes| ==> c'.nodes[k].quarantine == c.nodes[k].quarantine
  {
    steps', c' := Release(rule, start, steps, c, i);
    steps', c', g := StageElsewhere(rule, start, steps', c', j);
    StagedThere(c.nodes[j], g, p);
  }

  const WRITE_100 := Item({100}, true, Sound)

  /** A node that mounted generation 0 and, if `open`, has opened file 7. */
  function Mounted0(dir: CacheDir, open: set<(nat, FileId)>): Node {
    Node(map[0 := dir], Some(0), false, {}, map[0 := true], Some(0), NotMounting, map[], false, open, NoPass, None,
         Some(0))
  }

  lemma Mount0(rule: Rule) returns (steps: seq<Step>, c: Cluster)
    ensures Run(rule, Init(2), steps, c)
    ensures c == Cluster([Mounted0(map[], {}), EMPTY_NODE], Some(0), map[], {}, {}, {})
  {
    steps, c := Then(rule, Init(2), [], Init(2), Assign(0));
    assert Vetted(EMPTY_NODE, 0) == map[];
    steps, c := MountAt(rule, Init(2), steps, c, 0, 0);
    assert c.nodes == [Mounted0(map[], {}), EMPTY_NODE];
  }

  lemma Open7(rule: Rule) returns (steps: seq<Step>, c: Cluster)
    ensures Run(rule, Init(2), steps, c)
    ensures c == Cluster([Mounted0(map[], {(0, 7)}), EMPTY_NODE], Some(0), map[], {}, {}, {})
  {
    steps, c := Mount0(rule);
    steps, c := ApplyLocal(rule, Init(2), steps, c, 0, OpenFile(0, 7));
    assert {} + {(0, 7)} == {(0, 7)};
    assert c.nodes == [Mounted0(map[], {(0, 7)}), EMPTY_NODE];
  }

  lemma Written100(open: set<(nat, FileId)>)
    ensures Written(Mounted0(map[], open), 0, 7, 100, {}) == Mounted0(map[7 := WRITE_100], open)
  {
    var n := Mounted0(map[], open);
    assert {} + {100 as WriteId} == {100};
    assert Dir(n, 0) == map[] && n.dirs[0 := map[7 := WRITE_100]] == map[0 := map[7 := WRITE_100]];
  }

  lemma Write100(rule: Rule) returns (steps: seq<Step>, c: Cluster)
    ensures Run(rule, Init(2), steps, c)
    ensures c == Cluster([Mounted0(map[7 := WRITE_100], {(0, 7)}), EMPTY_NODE], Some(0), map[], {}, {(7, 100)}, {})
  {
    steps, c := Open7(rule);
    Written100({(0, 7)});
    assert Object(c, 7) == {} && {} + {(7 as FileId, 100 as WriteId)} == {(7, 100)};
    steps, c := Then(rule, Init(2), steps, c, Write(0, 0, 7, 100));
    assert c.nodes == [Mounted0(map[7 := WRITE_100], {(0, 7)}), EMPTY_NODE];
  }

  /** The node after its FUSE died and a remount bumped to generation 1, because the
      dead VFS still held the name. */
  const BUMPED := Node(map[0 := map[7 := WRITE_100], 1 := map[]], Some(1), false, {}, map[1 := true], Some(1),
                       NotMounting, map[], false, {}, NoPass, None, Some(1))

  lemma WriteThenBump() returns (steps: seq<Step>, c: Cluster)
    ensures Run(QuietRun, Init(2), steps, c)
    ensures c == Cluster([BUMPED, EMPTY_NODE], Some(0), map[], {}, {(7, 100)}, {})
  {
    steps, c := Write100(QuietRun);
    assert Surviving(c.nodes[0], {}) == c.nodes[0].(serving := map[], open := {});
    steps, c := ApplyLocal(QuietRun, Init(2), steps, c, 0, DropManager({}));
    assert Vetted(c.nodes[0], 1) == map[];
    steps, c := MountAt(QuietRun, Init(2), steps, c, 0, 1);
    assert c.nodes[0] == BUMPED;
    assert c.nodes == [BUMPED, EMPTY_NODE];
  }

  /** And such a state is reached: here the write is taken at generation 0 and the
      volume is staged elsewhere without it. */
  lemma AbandonedGenerationHidesWrites() returns (steps: seq<Step>, c: Cluster, g: nat)
    ensures Run(QuietRun, Init(2), steps, c) && |c.nodes| == 2
    ensures c.owner == Some(1) && Stages(c.nodes[1], g)
    ensures (7, 100) in c.accepted && 100 !in View(c, c.nodes[1], g, 7) && !Quarantined(c, 100)
  {
    steps, c := WriteThenBump();
    assert Dir(c.nodes[1], 0) == map[] && Dir(c.nodes[0], 1) == map[];
    steps, c, g := DirtyGenerationBehindIsUnsafe(QuietRun, Init(2), steps, c, 0, 1, 7, 100);
  }

  /** Exactly when the fast path's success is safe, in every quiet run: it has checked
      the mounted generation, so the node is clean if and only if every other
      generation is. */
  lemma FastUnstageIsSafeExactly(size: nat, steps: seq<Step>, c: Cluster, i: nat, id: nat)
    requires Run(QuietRun, Init(size), steps, c)
    requires i < |c.nodes| && id in c.nodes[i].unmounts && c.nodes[i].unmounts[id].stage == Forgotten
    ensures CleanNode(c.nodes[i]) <==>
            forall g, p :: g != c.nodes[i].unmounts[id].gen ==> !DirtyAt(c.nodes[i], g, p)
  {
    ConservationRun(Init(size), steps, c);
    assert NoneDirty(c.nodes[i], c.nodes[i].unmounts[id].gen);
  }

  // ---- its late upload ----

  /** A write the cluster has not seen. */
  ghost predicate Unseen(c: Cluster, p: FileId, w: WriteId) {
    && (forall q :: (q, w) !in c.accepted) && (p, w) !in c.stranded
    && w !in Object(c, p) && !Cached(c, p, w) && !Quarantined(c, w)
  }

  /** It stays unseen while nothing is written. */
  lemma StaysUnseen(c: Cluster, c': Cluster, i: nat, p: FileId, w: WriteId)
    requires Unseen(c, p, w) && i < |c.nodes| == |c'.nodes|
    requires c'.objects == c.objects && c'.accepted == c.accepted && c'.stranded == c.stranded
    requires forall j :: 0 <= j < |c.nodes| && j != i ==> c'.nodes[j] == c.nodes[j]
    requires c'.nodes[i].quarantine == c.nodes[i].quarantine
    requires forall h, q :: DirtyAt(c'.nodes[i], h, q) ==>
               DirtyAt(c.nodes[i], h, q) && VersionAt(c'.nodes[i], h, q) == VersionAt(c.nodes[i], h, q)
    ensures Unseen(c', p, w)
  {
    assert forall j :: 0 <= j < |c.nodes| ==> c'.nodes[j].quarantine == c.nodes[j].quarantine;
    forall j, g: nat | 0 <= j < |c'.nodes| && DirtyAt(c'.nodes[j], g, p)
      ensures w !in VersionAt(c'.nodes[j], g, p)
    {
      assert DirtyAt(c.nodes[j], g, p) && VersionAt(c'.nodes[j], g, p) == VersionAt(c.nodes[j], g, p);
    }
  }

  /** The node after file p of generation g was opened and written to. */
  function OpenWritten(n: Node, g: nat, p: FileId, w: WriteId, remote: set<WriteId>): Node {
    Written(n.(open := n.open + {(g, p)}), g, p, w, remote)
  }

  lemma OpenAndWrite(rule: Rule, start: Cluster, steps: seq<Step>, c: Cluster, i: nat, g: nat, p: FileId, w: WriteId)
    returns (steps': seq<Step>, c': Cluster)
    requires Run(rule, start, steps, c) && i < |c.nodes| && c.owner == Some(i) && Reachable(c.nodes[i], g)
    requires c.nodes[i].evict.NoPass? && forall q :: (q, w) !in c.accepted
    ensures Run(rule, start, steps', c')
    ensures c' == Put(c, i, OpenWritten(c.nodes[i], g, p, w, Object(c, p))).(accepted := c.accepted + {(p, w)})
  {
    steps', c' := ApplyLocal(rule, start, steps, c, i, OpenFile(g, p));
    steps', c' := Then(rule, start, steps', c', Write(i, g, p, w));
  }

  /** A write through g' and the uploads of g' and g leave no other file changed. */
  lemma StaleNode(n: Node, g: nat, g': nat, p: FileId, w: WriteId, remote: set<WriteId>)
    requires DirtyAt(n, g, p) && g' != g
    ensures var written := OpenWritten(n, g', p, w, remote);
            && DirtyAt(written, g', p)
            && DirtyAt(Uploaded(written, g', p), g, p)
            && VersionAt(Uploaded(written, g', p), g, p) == VersionAt(n, g, p)
            && var stale := Uploaded(Uploaded(written, g', p), g, p);
               forall h :: DirtyAt(stale, h, p) ==> DirtyAt(n, h, p) && VersionAt(stale, h, p) == VersionAt(n, h, p)
  {
    var written := OpenWritten(n, g', p, w, remote);
    assert forall h :: h != g' ==> Dir(written, h) == Dir(n, h);
    var once := Uploaded(written, g', p);
    assert forall h :: h != g' ==> Dir(once, h) == Dir(n, h);
    assert !DirtyAt(once, g', p) && !DirtyAt(Uploaded(once, g, p), g, p);
  }

  lemma StaleUploads(rule: Rule, start: Cluster, steps: seq<Step>, c: Cluster, i: nat, g: nat, g': nat, p: FileId)
    returns (steps': seq<Step>, c': Cluster)
    requires Run(rule, start, steps, c) && i < |c.nodes| && DirtyAt(c.nodes[i], g', p)
    requires DirtyAt(Uploaded(c.nodes[i], g', p), g, p)
    ensures Run(rule, start, steps', c')
    ensures c'.nodes == c.nodes[i := Uploaded(Uploaded(c.nodes[i], g', p), g, p)]
    ensures c'.accepted == c.accepted && c'.stranded == c.stranded
    ensures Object(c', p) == VersionAt(Uploaded(c.nodes[i], g', p), g, p)
  {
    steps', c' := Then(rule, start, steps, c, Upload(i, g', p));
    steps', c' := Then(rule, start, steps', c', Upload(i, g, p));
  }

  lemma StaleUpload(rule: Rule, start: Cluster, steps: seq<Step>, c: Cluster, i: nat, g: nat, g': nat,
                    p: FileId, w: WriteId)
    returns (steps': seq<Step>, c': Cluster)
    requires Run(rule, start, steps, c) && i < |c.nodes| && c.owner == Some(i) && c.nodes[i].evict.NoPass?
    requires DirtyAt(c.nodes[i], g, p) && g' != g && Reachable(c.nodes[i], g') && Unseen(c, p, w)
    ensures Run(rule, start, steps', c') && Lost(c', p, w) && c'.stranded == c.stranded
  {
    StaleNode(c.nodes[i], g, g', p, w, Object(c, p));
    steps', c' := OpenAndWrite(rule, start, steps, c, i, g', p, w);
    steps', c' := StaleUploads(rule, start, steps', c', i, g, g', p);
    assert w !in VersionAt(c.nodes[i], g, p);
    forall j, h: nat | 0 <= j < |c'.nodes| && DirtyAt(c'.nodes[j], h, p)
      ensures w !in VersionAt(c'.nodes[j], h, p)
    {
      assert DirtyAt(c.nodes[j], h, p) && VersionAt(c'.nodes[j], h, p) == VersionAt(c.nodes[j], h, p);
    }
    assert forall j :: 0 <= j < |c'.nodes| ==> c'.nodes[j].quarantine == c.nodes[j].quarantine;
  }

  /** Whatever run led there: beside a dirty file of one generation, a write to the
      same file through another can be uploaded and then replaced by the late
      upload of the first, and is nowhere. */
  lemma StaleUploadIsPossible(rule: Rule, start: Cluster, steps: seq<Step>, c: Cluster, i: nat, g: nat, g': nat,
                              p: FileId, w: WriteId)
    returns (steps': seq<Step>, c': Cluster)
    requires Run(rule, start, steps, c) && i < |c.nodes| && c.owner == Some(i)
    requires DirtyAt(c.nodes[i], g, p) && g' != g && Reachable(c.nodes[i], g') && Unseen(c, p, w)
    ensures Run(rule, start, steps', c') && Lost(c', p, w) && c'.stranded == c.stranded
  {
    IdledKeepsDirs(c.nodes[i]);
    steps', c' := Idle(rule, start, steps, c, i);
    StaysUnseen(c, c', i, p, w);
    steps', c' := StaleUpload(rule, start, steps', c', i, g, g', p, w);
  }

  /** And it happens: after a bump the abandoned generation's upload replaces the
      write its successor brought to S3. */
  lemma StaleUploadReplacesANewerWrite() returns (steps: seq<Step>, c: Cluster)
    ensures Run(QuietRun, Init(2), steps, c) && Lost(c, 7, 101)
  {
    steps, c := WriteThenBump();
    assert DirtyAt(c.nodes[0], 0, 7) && VersionAt(c.nodes[0], 0, 7) == {100};
    assert Dir(c.nodes[0], 1) == map[] && forall g :: Dir(c.nodes[1], g) == map[];
    assert forall g :: g != 0 ==> Dir(c.nodes[0], g) == map[];
    steps, c := StaleUploadIsPossible(QuietRun, Init(2), steps, c, 0, 0, 1, 7, 101);
  }

  // ---- a name map that forgets ----

  lemma WriteAtGeneration1() returns (steps: seq<Step>, c: Cluster)
    ensures Run(OrderlyRun, Init(1), steps, c) && |c.nodes| == 1
    ensures DirtyAt(c.nodes[0], 1, 7) && !c.nodes[0].torn && c.nodes[0].sweep.None?
  {
    var start := Init(1);
    steps, c := Then(OrderlyRun, start, [], start, Assign(0));
    steps, c := MountAt(OrderlyRun, start, steps, c, 0, 1);
    steps, c := OpenAndWrite(OrderlyRun, start, steps, c, 0, 1, 7, 100);
  }

  /** A crash while the map file is being rewritten, in an otherwise orderly run:
      the restart resumes on generation 0 and not on the one written to. */
  lemma TornMapStrandsWrites() returns (steps: seq<Step>, c: Cluster)
    ensures Run(OrderlyRun, Init(1), steps, c) && |c.nodes| == 1
    ensures DirtyAt(c.nodes[0], 1, 7) && ReadGen(Next(c.nodes[0], Crash), true) == 0
  {
    steps, c := WriteAtGeneration1();
    steps, c := ApplyLocal(OrderlyRun, Init(1), steps, c, 0, TearMap);
    CrashReadsTheMap(c.nodes[0], true);
  }

  /** So does a map that cannot be read after the crash. */
  lemma UnreadableMapStrandsWrites() returns (steps: seq<Step>, c: Cluster)
    ensures Run(OrderlyRun, Init(1), steps, c) && |c.nodes| == 1
    ensures DirtyAt(c.nodes[0], 1, 7) && ReadGen(Next(c.nodes[0], Crash), false) == 0
  {
    steps, c := WriteAtGeneration1();
    CrashReadsTheMap(c.nodes[0], false);
  }

  /** And another volume's save that drops the entry. */
  lemma LostEntryStrandsWrites() returns (steps: seq<Step>, c: Cluster)
    ensures Run(OrderlyRun, Init(1), steps, c) && |c.nodes| == 1
    ensures DirtyAt(c.nodes[0], 1, 7) && ReadGen(Next(c.nodes[0], Crash), true) == 0
  {
    steps, c := WriteAtGeneration1();
    steps, c := ApplyLocal(OrderlyRun, Init(1), steps, c, 0, LoseEntry);
    CrashReadsTheMap(c.nodes[0], true);
  }

  lemma ExposedUnsaved() returns (steps: seq<Step>, c: Cluster)
    ensures Run(OrderlyRun, Init(1), steps, c) && |c.nodes| == 1 && c.owner == Some(0) && c.accepted == {}
    ensures Reachable(c.nodes[0], 1) && c.nodes[0].evict.NoPass? && c.nodes[0].names == None && !c.nodes[0].torn
  {
    var start := Init(1);
    steps, c := Then(OrderlyRun, start, [], start, Assign(0));
    steps, c := MountNamed(OrderlyRun, start, steps, c, 0, 1);
    steps, c := MountChecked(OrderlyRun, start, steps, c, 0);
    steps, c := MountExposed(OrderlyRun, start, steps, c, 0, Untouched);
  }

  /** And a save that fails, which the mount does not notice. */
  lemma FailedSaveStrandsWrites() returns (steps: seq<Step>, c: Cluster)
    ensures Run(OrderlyRun, Init(1), steps, c) && |c.nodes| == 1
    ensures DirtyAt(c.nodes[0], 1, 7) && ReadGen(Next(c.nodes[0], Crash), true) == 0
  {
    steps, c := ExposedUnsaved();
    steps, c := OpenAndWrite(OrderlyRun, Init(1), steps, c, 0, 1, 7, 100);
    CrashReadsTheMap(c.nodes[0], true);
  }
}
