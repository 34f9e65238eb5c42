/** The places where the driver checks and then acts, and what can come in
    between: for each a run from the start that destroys an accepted write, and the
    condition under which nothing is destroyed (pkg/rclone/syncmanager.go,
    vfscache.go). Without these races Cluster.WritesAreConserved holds. */
module Races {
  import opened Basics
  import opened CacheDirs
  import opened NodeCache
  import opened Cluster
  import opened Runs
  import opened Hazards
  import DirtyScan

  /** Both nodes are empty of the write that only the first one had. */
  lemma NowhereLeft(c: Cluster, p: FileId, w: WriteId)
    requires |c.nodes| == 2 && c.nodes[1] == EMPTY_NODE && w !in Object(c, p) && (p, w) in c.accepted
    requires CleanNode(c.nodes[0]) && c.nodes[0].quarantine == {}
    ensures Lost(c, p, w)
  {
    assert CleanNode(EMPTY_NODE);
  }

  /** A clean file whose ranges no longer fit its data, still open for writing. */
  const CORRUPT_CLEAN := Item({100}, false, BadRanges)

  const CLEAN_100 := Item({100}, false, Sound)

  lemma CleanThenCorrupt(open: set<(nat, FileId)>)
    ensures Uploaded(Mounted0(map[7 := WRITE_100], open), 0, 7) == Mounted0(map[7 := CLEAN_100], open)
    ensures var n := Mounted0(map[7 := CLEAN_100], open);
            && Enabled(n, Corrupt(0, 7, BadRanges))
            && Next(n, Corrupt(0, 7, BadRanges)) == Mounted0(map[7 := CORRUPT_CLEAN], open)
  {
    var n := Mounted0(map[7 := WRITE_100], open);
    assert Dir(n, 0)[7 := CLEAN_100] == map[7 := CLEAN_100];
    assert n.dirs[0 := map[7 := CLEAN_100]] == map[0 := map[7 := CLEAN_100]];
    var m := Mounted0(map[7 := CLEAN_100], open);
    assert Dir(m, 0)[7 := CORRUPT_CLEAN] == map[7 := CORRUPT_CLEAN];
    assert m.dirs[0 := map[7 := CORRUPT_CLEAN]] == map[0 := map[7 := CORRUPT_CLEAN]];
  }

  lemma Upload100() returns (steps: seq<Step>, c: Cluster)
    ensures Run(AnyRun, Init(2), steps, c)
    ensures c == Cluster([Mounted0(map[7 := CLEAN_100], {(0, 7)}), EMPTY_NODE], Some(0), map[7 := {100}], {100},
                         {(7, 100)}, {})
  {
    steps, c := Write100(AnyRun);
    CleanThenCorrupt({(0, 7)});
    assert DirtyAt(c.nodes[0], 0, 7) && VersionAt(c.nodes[0], 0, 7) == {100};
    assert {} + {100 as WriteId} == {100};
    steps, c := Then(AnyRun, Init(2), steps, c, Upload(0, 0, 7));
    assert c.objects == map[7 := {100}];
    assert c.nodes == [Mounted0(map[7 := CLEAN_100], {(0, 7)}), EMPTY_NODE];
  }

  // ---- eviction: a write after the listing ----

  /** File 7 is cached, clean and closed; S3 has write 100. */
  function Settled(n: Node, accepted: set<(FileId, WriteId)>): Cluster {
    Cluster([n, EMPTY_NODE], Some(0), map[7 := {100}], {100}, accepted, {})
  }

  lemma CleanAndClosed() returns (steps: seq<Step>, c: Cluster)
    ensures Run(AnyRun, Init(2), steps, c) && c == Settled(Mounted0(map[7 := CLEAN_100], {}), {(7, 100)})
  {
    steps, c := Upload100();
    steps, c := ApplyLocal(AnyRun, Init(2), steps, c, 0, CloseFile(0, 7));
    assert c.nodes[0].open == {};
    assert c.nodes == [Mounted0(map[7 := CLEAN_100], {}), EMPTY_NODE];
  }

  lemma ProbeAndWalk(steps: seq<Step>, c: Cluster) returns (steps': seq<Step>, c': Cluster)
    requires Run(AnyRun, Init(2), steps, c) && |c.nodes| == 2
    requires c.nodes[0].evict.NoPass? && 0 in c.nodes[0].serving && DirtyIsOpen(c.nodes[0], 0)
    ensures Run(AnyRun, Init(2), steps', c')
    ensures c' == Put(c, 0, c.nodes[0].(evict := Walked(0, Dir(c.nodes[0], 0).Keys)))
  {
    steps', c' := ApplyLocal(AnyRun, Init(2), steps, c, 0, EvictProbe(0));
    steps', c' := ApplyLocal(AnyRun, Init(2), steps', c', 0, EvictWalk);
  }

  lemma ProbedAndWalked() returns (steps: seq<Step>, c: Cluster)
    ensures Run(AnyRun, Init(2), steps, c)
    ensures c == Settled(Mounted0(map[7 := CLEAN_100], {}).(evict := Walked(0, {7})), {(7, 100)})
  {
    steps, c := CleanAndClosed();
    assert Dir(c.nodes[0], 0).Keys == {7} && DirtyIsOpen(c.nodes[0], 0);
    steps, c := ProbeAndWalk(steps, c);
    assert c.nodes == [Mounted0(map[7 := CLEAN_100], {}).(evict := Walked(0, {7})), EMPTY_NODE];
  }

  lemma ListedAsClosed() returns (steps: seq<Step>, c: Cluster)
    ensures Run(AnyRun, Init(2), steps, c)
    ensures c == Settled(Mounted0(map[7 := CLEAN_100], {}).(evict := Pass(0, {7})), {(7, 100)})
  {
    steps, c := ProbedAndWalked();
    steps, c := ApplyLocal(AnyRun, Init(2), steps, c, 0, EvictList);
    assert c.nodes[0].evict == Pass(0, {7});
    assert c.nodes == [Mounted0(map[7 := CLEAN_100], {}).(evict := Pass(0, {7})), EMPTY_NODE];
  }

  lemma OpenedAfterListing() returns (steps: seq<Step>, c: Cluster)
    ensures Run(AnyRun, Init(2), steps, c)
    ensures c == Settled(Mounted0(map[7 := CLEAN_100], {(0, 7)}).(evict := Pass(0, {7})), {(7, 100)})
  {
    steps, c := ListedAsClosed();
    steps, c := ApplyLocal(AnyRun, Init(2), steps, c, 0, OpenFile(0, 7));
    assert c.nodes[0].open == {(0, 7)};
    assert c.nodes == [Mounted0(map[7 := CLEAN_100], {(0, 7)}).(evict := Pass(0, {7})), EMPTY_NODE];
  }

  lemma WrittenAfterListing() returns (steps: seq<Step>, c: Cluster)
    ensures Run(AnyRun, Init(2), steps, c) && |c.nodes| == 2 && c.nodes[1] == EMPTY_NODE
    ensures c.nodes[0].evict == Pass(0, {7}) && c.nodes[0].dirs.Keys == {0} && c.nodes[0].dirs[0].Keys == {7}
    ensures c.nodes[0].quarantine == {} && Object(c, 7) == {100} && (7, 101) in c.accepted
  {
    steps, c := OpenedAfterListing();
    steps, c := Then(AnyRun, Init(2), steps, c, Write(0, 0, 7, 101));
  }

  /** A cached file closed at the listing, then written, then removed takes its write
      with it. */
  lemma EvictionTakesALaterWrite() returns (steps: seq<Step>, c: Cluster)
    ensures Run(AnyRun, Init(2), steps, c) && Lost(c, 7, 101)
  {
    steps, c := WrittenAfterListing();
    steps, c := ApplyLocal(AnyRun, Init(2), steps, c, 0, EvictOne(7));
    assert Dir(c.nodes[0], 0) == map[];
    NowhereLeft(c, 7, 101);
  }

  /** Exactly when a write is safe from an eviction pass that has listed the open
      files: no removal the pass can still make destroys a dirty item if and only
      if the pass did not find the file there and closed. */
  lemma WriteDuringEvictionIsSafeExactly(n: Node, g: nat, p: FileId, w: WriteId, remote: set<WriteId>)
    requires Inv(n) && CanWrite(n, g, p)
    ensures PassSpares(Written(n, g, p, w, remote)) <==> QuietWrite(n, g, p)
  {
    var written := Written(n, g, p, w, remote);
    if QuietWrite(n, g, p) {
      WriteKeepsInv(n, g, p, w, remote);
      PassSparesUnderInv(written);
    } else {
      PassTakesDirt(written, p);
    }
  }

  // ---- eviction: a close between the probe and the listing ----

  lemma WalkedWithDirt() returns (steps: seq<Step>, c: Cluster)
    ensures Run(AnyRun, Init(2), steps, c)
    ensures c == Cluster([Mounted0(map[7 := WRITE_100], {(0, 7)}).(evict := Walked(0, {7})), EMPTY_NODE], Some(0),
                         map[], {}, {(7, 100)}, {})
  {
    steps, c := Write100(AnyRun);
    assert Dir(c.nodes[0], 0).Keys == {7} && DirtyIsOpen(c.nodes[0], 0);
    steps, c := ProbeAndWalk(steps, c);
    assert c.nodes == [Mounted0(map[7 := WRITE_100], {(0, 7)}).(evict := Walked(0, {7})), EMPTY_NODE];
  }

  lemma ClosedAfterWalk() returns (steps: seq<Step>, c: Cluster)
    ensures Run(AnyRun, Init(2), steps, c)
    ensures c == Cluster([Mounted0(map[7 := WRITE_100], {}).(evict := Walked(0, {7})), EMPTY_NODE], Some(0), map[], {},
                         {(7, 100)}, {})
  {
    steps, c := WalkedWithDirt();
    steps, c := ApplyLocal(AnyRun, Init(2), steps, c, 0, CloseFile(0, 7));
    assert c.nodes[0].open == {};
    assert c.nodes == [Mounted0(map[7 := WRITE_100], {}).(evict := Walked(0, {7})), EMPTY_NODE];
  }

  lemma ClosedThenListed() returns (steps: seq<Step>, c: Cluster)
    ensures Run(AnyRun, Init(2), steps, c)
    ensures c == Cluster([Mounted0(map[7 := WRITE_100], {}).(evict := Pass(0, {7})), EMPTY_NODE], Some(0), map[], {},
                         {(7, 100)}, {})
  {
    steps, c := ClosedAfterWalk();
    steps, c := ApplyLocal(AnyRun, Init(2), steps, c, 0, EvictList);
    assert c.nodes[0].evict == Pass(0, {7});
    assert c.nodes == [Mounted0(map[7 := WRITE_100], {}).(evict := Pass(0, {7})), EMPTY_NODE];
  }

  /** A file that was dirty and open when the queue was probed, and is closed before
      the open files are listed, is removed without another write. */
  lemma EvictionTakesAClosedFile() returns (steps: seq<Step>, c: Cluster)
    ensures Run(AnyRun, Init(2), steps, c) && Lost(c, 7, 100)
  {
    steps, c := ClosedThenListed();
    steps, c := ApplyLocal(AnyRun, Init(2), steps, c, 0, EvictOne(7));
    assert Dir(c.nodes[0], 0) == map[];
    NowhereLeft(c, 7, 100);
  }

  predicate Closes(s: NodeStep) {
    s.CloseFile? || s.VfsGone? || s.AbortMount? || s.Shut? || s.DropManager?
  }

  lemma ClosingKeepsDirs(n: Node, s: NodeStep)
    requires Enabled(n, s) && Closes(s)
    ensures Next(n, s).dirs == n.dirs && Next(n, s).evict == n.evict && Next(n, s).open <= n.open
  {
  }

  /** A pass that has its listing and spares every dirty item. */
  ghost predicate PassSpares(n: Node) {
    forall q :: Enabled(n, EvictOne(q)) ==> KeepsDirty(n, Next(n, EvictOne(q)), {})
  }

  lemma PassSparesUnderInv(n: Node)
    requires Inv(n)
    ensures PassSpares(n)
  {
    forall q | Enabled(n, EvictOne(q))
      ensures KeepsDirty(n, Next(n, EvictOne(q)), {})
    {
      EvictKeepsDirty(n, q);
    }
  }

  lemma PassTakesDirt(n: Node, p: FileId)
    requires n.evict.Pass? && p in n.evict.doomed && DirtyAt(n, n.evict.gen, p)
    ensures !PassSpares(n)
  {
    assert Enabled(n, EvictOne(p)) && !DirtyAt(Next(n, EvictOne(p)), n.evict.gen, p);
  }

  /** The pass after what is left of its walk and its listing. */
  ghost function Listed(n: Node): Node
    requires n.evict.Probed? || n.evict.Walked?
  {
    if n.evict.Probed? then Next(Next(n, EvictWalk), EvictList) else Next(n, EvictList)
  }

  lemma ListingOf(n: Node, p: FileId)
    requires n.evict.Probed? || n.evict.Walked?
    ensures Listed(n).dirs == n.dirs && Listed(n).evict.Pass? && Listed(n).evict.gen == n.evict.gen
    ensures Threatens(n.evict, p) && p in Dir(n, n.evict.gen) && (n.evict.gen, p) !in n.open ==>
              p in Listed(n).evict.doomed
  {
  }

  lemma ListingKeepsInv(n: Node)
    requires Inv(n) && (n.evict.Probed? || n.evict.Walked?)
    ensures Inv(Listed(n))
  {
    if n.evict.Probed? {
      EvictionKeepsInv(n, EvictWalk);
      EvictListKeepsInv(Next(n, EvictWalk));
    } else {
      EvictListKeepsInv(n);
    }
  }

  lemma ListedPassSpares(n: Node)
    requires Inv(n) && (n.evict.Probed? || n.evict.Walked?)
    ensures PassSpares(Listed(n))
  {
    ListingKeepsInv(n);
    PassSparesUnderInv(Listed(n));
  }

  /** Exactly when a step that closes files, be it a close, the end of a VFS or an
      unmount, is safe between the queue probe of an eviction pass and its listing:
      no removal the pass makes after listing destroys a dirty item if and only if
      the step closes no dirty file the pass can come to remove. */
  lemma CloseBeforeListingIsSafeExactly(n: Node, s: NodeStep)
    requires Inv(n) && (n.evict.Probed? || n.evict.Walked?) && Enabled(n, s) && Closes(s)
    ensures Next(n, s).evict == n.evict
    ensures PassSpares(Listed(Next(n, s))) <==> NoRace(n, s)
  {
    ClosingKeepsDirs(n, s);
    var closed := Next(n, s);
    if NoRace(n, s) {
      StepKeepsInv(n, s);
      ListedPassSpares(closed);
    } else {
      var p: FileId :| Threatens(n.evict, p) && DirtyAt(n, n.evict.gen, p) && (n.evict.gen, p) !in closed.open;
      ListingOf(closed, p);
      assert Dir(Listed(closed), n.evict.gen) == Dir(n, n.evict.gen);
      PassTakesDirt(Listed(closed), p);
    }
  }

  // ---- sweep: a write between the check and the removal ----

  /** The sweep under way destroys no dirty item. */
  ghost predicate SweepSpares(n: Node) {
    n.sweep.Some? && KeepsDirty(n, Next(n, SweepRemove({})), {})
  }

  lemma SweepSparesExactly(n: Node)
    requires n.sweep.Some?
    ensures SweepSpares(n) <==> NoneDirty(n, n.sweep.value)
  {
    var n' := Next(n, SweepRemove({}));
    assert Dir(n', n.sweep.value) == map[];
    if NoneDirty(n, n.sweep.value) {
      OneDirKeepsDirty(n, n', n.sweep.value);
    }
  }

  lemma CheckedIsClean(n: Node, g: nat, walk: DirtyScan.Tree, readable: bool)
    requires Enabled(n, SweepCheck(g, walk, readable)) && DirtyScan.Steady(walk)
    ensures Next(n, SweepCheck(g, walk, readable)) == n.(sweep := Some(g)) && NoneDirty(n, g)
  {
    CleanWalkMeansNoneDirty(n, g, walk);
  }

  lemma WriteDuringSweep(n: Node, h: nat, p: FileId, w: WriteId, remote: set<WriteId>)
    requires n.sweep.Some? && NoneDirty(n, n.sweep.value)
    ensures SweepSpares(Written(n, h, p, w, remote)) <==> n.sweep != Some(h)
  {
    var written := Written(n, h, p, w, remote);
    SweepSparesExactly(written);
    if n.sweep == Some(h) {
      assert DirtyAt(written, h, p);
    } else {
      assert forall q :: DirtyAt(written, n.sweep.value, q) ==> DirtyAt(n, n.sweep.value, q);
    }
  }

  /** Whatever consumers write now, the sweep under way spares it. */
  ghost predicate SweepSparesWrites(n: Node) {
    forall h, p, w, remote :: Reachable(n, h) ==> SweepSpares(Written(n, h, p, w, remote))
  }

  lemma SweepSparesWritesExactly(n: Node)
    requires n.sweep.Some? && NoneDirty(n, n.sweep.value)
    ensures SweepSparesWrites(n) <==> !Reachable(n, n.sweep.value)
  {
    forall h: nat, p: FileId, w: WriteId, remote: set<WriteId>
      ensures SweepSpares(Written(n, h, p, w, remote)) <==> n.sweep != Some(h)
    {
      WriteDuringSweep(n, h, p, w, remote);
    }
    if Reachable(n, n.sweep.value) {
      assert !SweepSpares(Written(n, n.sweep.value, 0, 0, {}));
    }
  }

  /** Exactly when a generation may be swept: whatever consumers write between the
      check and the removal survives if and only if they cannot reach it. */
  lemma SweepIsSafeExactly(n: Node, g: nat, walk: DirtyScan.Tree, readable: bool)
    requires Enabled(n, SweepCheck(g, walk, readable)) && DirtyScan.Steady(walk)
    ensures SweepSparesWrites(Next(n, SweepCheck(g, walk, readable))) <==> !Reachable(n, g)
  {
    CheckedIsClean(n, g, walk, readable);
    var checked := n.(sweep := Some(g));
    assert forall p :: DirtyAt(checked, g, p) ==> DirtyAt(n, g, p);
    SweepSparesWritesExactly(checked);
  }

  /** And exactly when a mount may be exposed during a sweep: when that sweeps
      another generation. A sweep that could not read the map can be at any. */
  lemma ExposingDuringASweepIsSafeExactly(n: Node)
    requires Inv(n) && n.sweep.Some? && Enabled(n, Expose)
    ensures SweepSparesWrites(Next(n, Expose)) <==> n.sweep != Some(n.mounting.gen)
  {
    var exposed := Next(n, Expose);
    assert forall p :: DirtyAt(exposed, n.sweep.value, p) ==> DirtyAt(n, n.sweep.value, p);
    SweepSparesWritesExactly(exposed);
  }

  /** A node whose two generations both serve: vfs/list did not answer, so the
      second mount took a fresh generation without ending the first. */
  const TWO_SERVING := Node(map[1 := map[], 2 := map[]], Some(2), false, {}, map[1 := true, 2 := true], Some(2),
                            NotMounting, map[], false, {}, NoPass, None, Some(2))

  lemma TwoMounts() returns (steps: seq<Step>, c: Cluster)
    ensures Run(AnyRun, Init(2), steps, c)
    ensures c == Cluster([TWO_SERVING, EMPTY_NODE], Some(0), map[], {}, {}, {})
  {
    steps, c := Then(AnyRun, Init(2), [], Init(2), Assign(0));
    assert Vetted(c.nodes[0], 1) == map[];
    steps, c := MountAt(AnyRun, Init(2), steps, c, 0, 1);
    assert Vetted(c.nodes[0], 2) == map[];
    steps, c := MountAt(AnyRun, Init(2), steps, c, 0, 2);
    assert c.nodes[0] == TWO_SERVING;
    assert c.nodes == [TWO_SERVING, EMPTY_NODE];
  }

  lemma SweepChecked() returns (steps: seq<Step>, c: Cluster)
    ensures Run(AnyRun, Init(2), steps, c)
    ensures c == Cluster([TWO_SERVING.(sweep := Some(1)), EMPTY_NODE], Some(0), map[], {}, {}, {})
  {
    steps, c := TwoMounts();
    assert Dir(c.nodes[0], 1) == map[];
    NoItemsWalk(map[]);
    steps, c := ApplyLocal(AnyRun, Init(2), steps, c, 0, SweepCheck(1, NO_ITEMS, true));
    assert c.nodes == [TWO_SERVING.(sweep := Some(1)), EMPTY_NODE];
  }

  lemma WrittenUnderTheSweep() returns (steps: seq<Step>, c: Cluster)
    ensures Run(AnyRun, Init(2), steps, c) && |c.nodes| == 2 && c.nodes[1] == EMPTY_NODE
    ensures c.nodes[0].sweep == Some(1) && c.nodes[0].quarantine == {} && Object(c, 7) == {} && (7, 100) in c.accepted
    ensures forall g :: g != 1 ==> Dir(c.nodes[0], g) == map[]
  {
    steps, c := SweepChecked();
    steps, c := OpenAndWrite(AnyRun, Init(2), steps, c, 0, 1, 7, 100);
  }

  /** A generation that consumers still reach is found clean, written to and then
      removed. */
  lemma SweepTakesALaterWrite() returns (steps: seq<Step>, c: Cluster)
    ensures Run(AnyRun, Init(2), steps, c) && Lost(c, 7, 100)
  {
    steps, c := WrittenUnderTheSweep();
    var n := c.nodes[0];
    assert Removed(n, 1, {}) == map[];
    steps, c := ApplyLocal(AnyRun, Init(2), steps, c, 0, SweepRemove({}));
    assert forall g :: Dir(c.nodes[0], g) == if g == 1 then map[] else Dir(n, g);
    NowhereLeft(c, 7, 100);
  }

  // ---- validation: a write between the check and the removal of an item ----

  /** The validation under way, with every rename working, destroys no dirty item. */
  ghost predicate ValidationSpares(n: Node) {
    n.mounting.Vetting? && KeepsDirty(n, Next(n, Validate({}, {})), Aside(n, Validate({}, {})))
  }

  lemma ValidationSparesExactly(n: Node)
    requires n.mounting.Vetting? && n.mounting.doomed !! n.mounting.aside
    ensures ValidationSpares(n) <==> NoneDirtyAmong(n, n.mounting.gen, n.mounting.doomed)
  {
    var g, n' := n.mounting.gen, Next(n, Validate({}, {}));
    assert forall g' :: g' != g ==> Dir(n', g') == Dir(n, g');
    if p :| p in n.mounting.doomed && DirtyAt(n, g, p) {
      assert !DirtyAt(n', g, p) && (g, p) !in Aside(n, Validate({}, {}));
    } else {
      forall p: FileId | DirtyAt(n, g, p) && !DirtyAt(n', g, p)
        ensures (g, p) in Aside(n, Validate({}, {})) && VersionAt(n, g, p) <= n'.quarantine
      {
        assert p in n.mounting.aside;
      }
    }
  }

  lemma VettedNode(n: Node)
    requires Enabled(n, Vet)
    ensures var g, dir := n.mounting.gen, Dir(n, n.mounting.gen);
            && Next(n, Vet) == n.(mounting := Vetting(g, Doomed(dir), ToMove(dir)))
            && Doomed(dir) !! ToMove(dir) && NoneDirtyAmong(n, g, Doomed(dir))
  {
  }

  lemma WriteDuringValidation(n: Node, h: nat, p: FileId, w: WriteId, remote: set<WriteId>)
    requires n.mounting.Vetting? && n.mounting.doomed !! n.mounting.aside
    requires NoneDirtyAmong(n, n.mounting.gen, n.mounting.doomed)
    ensures ValidationSpares(Written(n, h, p, w, remote)) <==> !(h == n.mounting.gen && p in n.mounting.doomed)
  {
    var written := Written(n, h, p, w, remote);
    ValidationSparesExactly(written);
    assert forall g: nat, q :: DirtyAt(written, g, q) <==> DirtyAt(n, g, q) || (g == h && q == p);
  }

  /** Exactly when a generation may be validated: whatever consumers write between
      the check of an item and its removal survives if and only if they cannot
      reach the generation, or it has no item to remove. */
  lemma ValidationIsSafeExactly(n: Node)
    requires Enabled(n, Vet)
    ensures (forall h, p, w, remote :: Reachable(n, h) ==> ValidationSpares(Written(Next(n, Vet), h, p, w, remote)))
            <==> NoRace(n, Vet)
  {
    VettedNode(n);
    var vetted := Next(n, Vet);
    assert forall p :: DirtyAt(vetted, vetted.mounting.gen, p) ==> DirtyAt(n, n.mounting.gen, p);
    forall h: nat, p: FileId, w: WriteId, remote: set<WriteId>
      ensures ValidationSpares(Written(vetted, h, p, w, remote)) <==>
              !(h == vetted.mounting.gen && p in vetted.mounting.doomed)
    {
      WriteDuringValidation(vetted, h, p, w, remote);
    }
    if Reachable(n, n.mounting.gen) && vetted.mounting.doomed != {} {
      var p :| p in vetted.mounting.doomed;
      assert !ValidationSpares(Written(vetted, n.mounting.gen, p, 0, {}));
    }
  }

  lemma CorruptedAfterUpload() returns (steps: seq<Step>, c: Cluster)
    ensures Run(AnyRun, Init(2), steps, c)
    ensures c == Cluster([Mounted0(map[7 := CORRUPT_CLEAN], {(0, 7)}), EMPTY_NODE], Some(0), map[7 := {100}], {100},
                         {(7, 100)}, {})
  {
    steps, c := Upload100();
    CleanThenCorrupt({(0, 7)});
    steps, c := ApplyLocal(AnyRun, Init(2), steps, c, 0, Corrupt(0, 7, BadRanges));
    assert c.nodes == [Mounted0(map[7 := CORRUPT_CLEAN], {(0, 7)}), EMPTY_NODE];
  }

  /** A mount that settled on the generation still served: ending the old session
      ran out of time and vfs/list did not answer afterwards. */
  lemma VettedWhileReachable() returns (steps: seq<Step>, c: Cluster)
    ensures Run(AnyRun, Init(2), steps, c)
    ensures c == Cluster([Mounted0(map[7 := CORRUPT_CLEAN], {(0, 7)}).(mounting := Vetting(0, {7}, {})), EMPTY_NODE],
                         Some(0), map[7 := {100}], {100}, {(7, 100)}, {})
  {
    steps, c := CorruptedAfterUpload();
    steps, c := MountNamed(AnyRun, Init(2), steps, c, 0, 0);
    var dir := map[7 := CORRUPT_CLEAN];
    assert Dir(c.nodes[0], 0) == dir && Doomed(dir) == {7} && ToMove(dir) == {};
    steps, c := ApplyLocal(AnyRun, Init(2), steps, c, 0, Vet);
    assert c.nodes == [Mounted0(dir, {(0, 7)}).(mounting := Vetting(0, {7}, {})), EMPTY_NODE];
  }

  lemma WrittenWhileVetted() returns (steps: seq<Step>, c: Cluster)
    ensures Run(AnyRun, Init(2), steps, c) && |c.nodes| == 2 && c.nodes[1] == EMPTY_NODE
    ensures c.nodes[0].mounting == Vetting(0, {7}, {}) && c.nodes[0].dirs.Keys == {0} && c.nodes[0].dirs[0].Keys == {7}
    ensures c.nodes[0].quarantine == {} && Object(c, 7) == {100} && (7, 101) in c.accepted
  {
    steps, c := VettedWhileReachable();
    steps, c := Then(AnyRun, Init(2), steps, c, Write(0, 0, 7, 101));
  }

  /** An item found corrupt and clean is written to before it is removed. */
  lemma ValidationTakesALaterWrite() returns (steps: seq<Step>, c: Cluster)
    ensures Run(AnyRun, Init(2), steps, c) && Lost(c, 7, 101)
  {
    steps, c := WrittenWhileVetted();
    assert Aside(c.nodes[0], Validate({}, {})) == {};
    steps, c := ApplyLocal(AnyRun, Init(2), steps, c, 0, Validate({}, {}));
    assert Dir(c.nodes[0], 0) == map[];
    NowhereLeft(c, 7, 101);
  }

  // ---- validation: an item whose two files part ways ----

  const CORRUPT_DIRTY := Item({100}, true, BadRanges)

  lemma CorruptedWhileDirty() returns (steps: seq<Step>, c: Cluster)
    ensures Run(AnyRun, Init(2), steps, c)
    ensures c == Cluster([Mounted0(map[7 := CORRUPT_DIRTY], {(0, 7)}), EMPTY_NODE], Some(0), map[], {}, {(7, 100)}, {})
  {
    steps, c := Write100(AnyRun);
    var n := c.nodes[0];
    assert Dir(n, 0)[7 := CORRUPT_DIRTY] == map[7 := CORRUPT_DIRTY];
    assert n.dirs[0 := map[7 := CORRUPT_DIRTY]] == map[0 := map[7 := CORRUPT_DIRTY]];
    steps, c := ApplyLocal(AnyRun, Init(2), steps, c, 0, Corrupt(0, 7, BadRanges));
    assert c.nodes == [Mounted0(map[7 := CORRUPT_DIRTY], {(0, 7)}), EMPTY_NODE];
  }

  lemma VettedWhileDirty() returns (steps: seq<Step>, c: Cluster)
    ensures Run(AnyRun, Init(2), steps, c)
    ensures c == Cluster([Mounted0(map[7 := CORRUPT_DIRTY], {(0, 7)}).(mounting := Vetting(0, {}, {7})), EMPTY_NODE],
                         Some(0), map[], {}, {(7, 100)}, {})
  {
    steps, c := CorruptedWhileDirty();
    steps, c := MountNamed(AnyRun, Init(2), steps, c, 0, 0);
    var dir := map[7 := CORRUPT_DIRTY];
    assert Dir(c.nodes[0], 0) == dir && Doomed(dir) == {} && ToMove(dir) == {7};
    steps, c := ApplyLocal(AnyRun, Init(2), steps, c, 0, Vet);
    assert c.nodes == [Mounted0(dir, {(0, 7)}).(mounting := Vetting(0, {}, {7})), EMPTY_NODE];
  }

  /** The metadata of a corrupt dirty item moves to quarantine and its data does not:
      what is left looks clean, and no quarantine has the write. */
  lemma HalfMovedItemIsLost() returns (steps: seq<Step>, c: Cluster)
    ensures Run(AnyRun, Init(2), steps, c) && Lost(c, 7, 100)
  {
    steps, c := VettedWhileDirty();
    assert Aside(c.nodes[0], Validate({}, {7})) == {};
    steps, c := ApplyLocal(AnyRun, Init(2), steps, c, 0, Validate({}, {7}));
    assert Dir(c.nodes[0], 0) == map[];
    NowhereLeft(c, 7, 100);
  }
}
