/** One volume on a cluster: every node's cache, the S3 objects, and the container
    orchestrator that lets one node at a time use the volume. The orchestrator
    follows NodeUnstageVolume as the CSI specification defines it: it assigns the
    volume to another node only after the current one reported success
    (pkg/driver/node.go, pkg/driver/node_s3.go).

    Assumed: consumers write only on the node the volume is assigned to. */
module Cluster {
  import opened Basics
  import opened CacheDirs
  import opened NodeCache

  datatype Cluster = Cluster(
    nodes: seq<Node>,
    owner: Option<nat>,                     // node the orchestrator has assigned
    objects: map<FileId, set<WriteId>>,     // S3: content of each object, replaced by every upload
    uploaded: set<WriteId>,                 // every write an upload has ever carried
    accepted: set<(FileId, WriteId)>,       // every write a consumer was told succeeded
    stranded: set<(FileId, WriteId)>)       // writes S3 lacked when validation set their item aside

  function Init(size: nat): Cluster {
    Cluster(seq(size, i => EMPTY_NODE), None, map[], {}, {}, {})
  }

  function Object(c: Cluster, p: FileId): set<WriteId> {
    if p in c.objects then c.objects[p] else {}
  }

  datatype Step =
    | Local(i: nat, step: NodeStep)
    | Write(i: nat, g: nat, p: FileId, w: WriteId)
    | Upload(i: nat, g: nat, p: FileId)
    | Assign(i: nat)
    | ForceUnstage(i: nat)    // the force annotation, with no manager

  /** AnyRun is every run of these steps, failures included. In a QuietRun no check is
      overtaken before it is acted on (NodeCache.QuietWrite, NodeCache.NoRace); an
      OrderlyRun is quiet and keeps to NodeCache.Orderly. */
  datatype Rule = AnyRun | QuietRun | OrderlyRun

  ghost predicate Allowed(rule: Rule, c: Cluster, step: Step) {
    && step.i < |c.nodes|
    && var n := c.nodes[step.i];
       match step
       case Local(i, s) => && Enabled(n, s)
                           && (s.BeginMount? ==> n.slot || c.owner == Some(i))
                           && (!rule.AnyRun? ==> NoRace(n, s))
                           && (rule.OrderlyRun? ==> Orderly(n, s))
       case Write(i, g, p, w) => && CanWrite(n, g, p) && c.owner == Some(i)
                                 && (forall q :: (q, w) !in c.accepted)
                                 && (!rule.AnyRun? ==> QuietWrite(n, g, p))
       case Upload(_, g, p) => DirtyAt(n, g, p)
       case Assign(_) => c.owner.None?
       case ForceUnstage(_) => !rule.OrderlyRun? && n.manager.None?
  }

  /** Does finishing this unmount make NodeUnstageVolume report success? */
  predicate ReportsSuccess(u: Unmount) {
    || u.purpose == Forced
    || (u.purpose == FastPath && u.stage == Forgotten)
    || (u.purpose == Unmanaged && u.stage == Judged(true))
  }

  function Released(c: Cluster, i: nat): Option<nat> {
    if c.owner == Some(i) then None else c.owner
  }

  /** The writes that step s of node i moves to quarantine while S3 lacks them. */
  ghost function StrandedBy(c: Cluster, i: nat, s: NodeStep): set<(FileId, WriteId)>
    requires i < |c.nodes| && Enabled(c.nodes[i], s)
  {
    var n := c.nodes[i];
    set q, w | q in Aside(n, s) && q.1 in Dir(n, q.0) && w in VersionAt(n, q.0, q.1) && w !in Object(c, q.1)
      :: (q.1, w)
  }

  ghost function AfterLocal(c: Cluster, i: nat, s: NodeStep): Cluster
    requires i < |c.nodes| && Enabled(c.nodes[i], s)
  {
    c.(nodes := c.nodes[i := Next(c.nodes[i], s)],
       owner := if s.FinishUnmount? && ReportsSuccess(c.nodes[i].unmounts[s.id]) then Released(c, i) else c.owner,
       stranded := c.stranded + StrandedBy(c, i, s))
  }

  function AfterWrite(c: Cluster, i: nat, g: nat, p: FileId, w: WriteId): Cluster
    requires i < |c.nodes|
  {
    c.(nodes := c.nodes[i := Written(c.nodes[i], g, p, w, Object(c, p))], accepted := c.accepted + {(p, w)})
  }

  ghost function AfterUpload(c: Cluster, i: nat, g: nat, p: FileId): Cluster
    requires i < |c.nodes| && DirtyAt(c.nodes[i], g, p)
  {
    var version := VersionAt(c.nodes[i], g, p);
    c.(nodes := c.nodes[i := Uploaded(c.nodes[i], g, p)], objects := c.objects[p := version],
       uploaded := c.uploaded + version)
  }

  ghost function After(rule: Rule, c: Cluster, step: Step): Cluster
    requires Allowed(rule, c, step)
  {
    match step
    case Local(i, s) => AfterLocal(c, i, s)
    case Write(i, g, p, w) => AfterWrite(c, i, g, p, w)
    case Upload(i, g, p) => AfterUpload(c, i, g, p)
    case Assign(i) => c.(owner := Some(i))
    case ForceUnstage(i) => c.(owner := Released(c, i))
  }

  ghost predicate Run(rule: Rule, c: Cluster, steps: seq<Step>, c': Cluster)
    decreases |steps|
  {
    if steps == [] then c == c'
    else Allowed(rule, c, steps[0]) && Run(rule, After(rule, c, steps[0]), steps[1..], c')
  }

  // ---- conservation ----

  ghost predicate Quarantined(c: Cluster, w: WriteId) {
    exists i :: 0 <= i < |c.nodes| && w in c.nodes[i].quarantine
  }

  ghost predicate Cached(c: Cluster, p: FileId, w: WriteId) {
    exists i, g: nat :: 0 <= i < |c.nodes| && DirtyAt(c.nodes[i], g, p) && w in VersionAt(c.nodes[i], g, p)
  }

  /** Nothing accepted is lost: it reached S3, waits in some node's cache, or was
      moved to quarantine before S3 had it. */
  ghost predicate Kept(c: Cluster, p: FileId, w: WriteId) {
    w in c.uploaded || Cached(c, p, w) || (p, w) in c.stranded
  }

  ghost predicate Conserved(c: Cluster) {
    forall p, w :: (p, w) in c.accepted ==> Kept(c, p, w)
  }

  ghost predicate ConservationInv(c: Cluster) {
    && (forall i :: 0 <= i < |c.nodes| ==> NodeCache.Inv(c.nodes[i]))
    && (forall p :: Object(c, p) <= c.uploaded)
    && Conserved(c)
  }

  /** What a change to one node must respect for nothing to be lost: each write a
      dirty item held is still held there, uploaded or stranded. */
  lemma ConservationMove(c: Cluster, c': Cluster, i: nat)
    requires Conserved(c) && i < |c.nodes| && |c'.nodes| == |c.nodes|
    requires forall j: nat :: j < |c.nodes| && j != i ==> c'.nodes[j] == c.nodes[j]
    requires c.uploaded <= c'.uploaded && c.stranded <= c'.stranded
    requires forall g: nat, p: FileId, w: WriteId :: DirtyAt(c.nodes[i], g, p) && w in VersionAt(c.nodes[i], g, p) ==>
               (DirtyAt(c'.nodes[i], g, p) && w in VersionAt(c'.nodes[i], g, p))
               || w in c'.uploaded || (p, w) in c'.stranded
    ensures forall p, w :: (p, w) in c.accepted ==> Kept(c', p, w)
  {
    forall p, w | (p, w) in c.accepted
      ensures Kept(c', p, w)
    {
      assert Kept(c, p, w);
      if Cached(c, p, w) {
        var j, g: nat :| 0 <= j < |c.nodes| && DirtyAt(c.nodes[j], g, p) && w in VersionAt(c.nodes[j], g, p);
        assert j != i ==> c'.nodes[j] == c.nodes[j];
      }
    }
  }

  lemma ConservationLocal(c: Cluster, i: nat, s: NodeStep)
    requires ConservationInv(c) && i < |c.nodes| && Enabled(c.nodes[i], s) && NoRace(c.nodes[i], s)
    ensures ConservationInv(AfterLocal(c, i, s))
  {
    var n, c' := c.nodes[i], AfterLocal(c, i, s);
    StepKeepsInv(n, s);
    StepKeepsDirty(n, s);
    forall g: nat, p: FileId, w: WriteId | DirtyAt(n, g, p) && w in VersionAt(n, g, p)
      ensures (DirtyAt(c'.nodes[i], g, p) && w in VersionAt(c'.nodes[i], g, p))
              || w in c'.uploaded || (p, w) in c'.stranded
    {
      if !DirtyAt(c'.nodes[i], g, p) && w !in Object(c, p) {
        var q := (g, p);
        assert q in Aside(n, s) && (q.1, w) in StrandedBy(c, i, s);
      }
    }
    ConservationMove(c, c', i);
    assert forall p :: Object(c', p) == Object(c, p);
  }

  lemma ConservationWrite(c: Cluster, i: nat, g: nat, p: FileId, w: WriteId)
    requires ConservationInv(c) && i < |c.nodes| && CanWrite(c.nodes[i], g, p) && QuietWrite(c.nodes[i], g, p)
    ensures ConservationInv(AfterWrite(c, i, g, p, w))
  {
    var c' := AfterWrite(c, i, g, p, w);
    WriteKeepsInv(c.nodes[i], g, p, w, Object(c, p));
    assert DirtyAt(c'.nodes[i], g, p) && w in VersionAt(c'.nodes[i], g, p);
    ConservationMove(c, c', i);
    assert forall q :: Object(c', q) == Object(c, q);
  }

  lemma ConservationUpload(c: Cluster, i: nat, g: nat, p: FileId)
    requires ConservationInv(c) && i < |c.nodes| && DirtyAt(c.nodes[i], g, p)
    ensures ConservationInv(AfterUpload(c, i, g, p))
  {
    var c' := AfterUpload(c, i, g, p);
    UploadKeepsInv(c.nodes[i], g, p);
    ConservationMove(c, c', i);
    assert forall q :: Object(c', q) == if q == p then VersionAt(c.nodes[i], g, p) else Object(c, q);
  }

  lemma ConservationStep(c: Cluster, step: Step)
    requires ConservationInv(c) && Allowed(QuietRun, c, step)
    ensures ConservationInv(After(QuietRun, c, step))
  {
    match step {
      case Local(i, s) => ConservationLocal(c, i, s);
      case Write(i, g, p, w) => ConservationWrite(c, i, g, p, w);
      case Upload(i, g, p) => ConservationUpload(c, i, g, p);
      case _ =>
        var c' := After(QuietRun, c, step);
        ConservationMove(c, c', step.i);
        assert forall p :: Object(c', p) == Object(c, p);
    }
  }

  lemma {:induction false} ConservationRun(c: Cluster, steps: seq<Step>, c': Cluster)
    requires ConservationInv(c) && Run(QuietRun, c, steps, c')
    ensures ConservationInv(c')
    decreases |steps|
  {
    if steps != [] {
      ConservationStep(c, steps[0]);
      ConservationRun(After(QuietRun, c, steps[0]), steps[1..], c');
    }
  }

  /** Whatever mounts, writes, uploads, unmounts, forced unstages, validations,
      evictions, sweeps, corruptions and crashes happen on however many nodes,
      while no check is overtaken (NodeCache.QuietWrite, NodeCache.NoRace), no accepted
      write is destroyed before it reached S3. Modules Races and Verdicts have a run
      for each way of overtaking one that destroys a write. */
  lemma WritesAreConserved(size: nat, steps: seq<Step>, c: Cluster)
    requires Run(QuietRun, Init(size), steps, c)
    ensures Conserved(c) && StrandedIsAside(c)
  {
    ConservationRun(Init(size), steps, c);
    StrandedIsQuarantined(QuietRun, Init(size), steps, c);
  }

  ghost predicate StrandedIsAside(c: Cluster) {
    forall p, w :: (p, w) in c.stranded ==> Quarantined(c, w)
  }

  lemma QuarantineGrows(c: Cluster, c': Cluster, i: nat)
    requires i < |c.nodes| == |c'.nodes| && c.nodes[i].quarantine <= c'.nodes[i].quarantine
    requires forall j: nat :: j < |c.nodes| && j != i ==> c'.nodes[j] == c.nodes[j]
    ensures forall w :: Quarantined(c, w) ==> Quarantined(c', w)
  {
    forall w | Quarantined(c, w)
      ensures Quarantined(c', w)
    {
      var j :| 0 <= j < |c.nodes| && w in c.nodes[j].quarantine;
      assert w in c'.nodes[j].quarantine;
    }
  }

  lemma StrandedLocal(c: Cluster, i: nat, s: NodeStep)
    requires StrandedIsAside(c) && i < |c.nodes| && Enabled(c.nodes[i], s)
    ensures StrandedIsAside(AfterLocal(c, i, s))
  {
    var n, c' := c.nodes[i], AfterLocal(c, i, s);
    if s.Validate? {
      forall p, w | (p, w) in StrandedBy(c, i, s)
        ensures w in c'.nodes[i].quarantine
      {
        assert w in WritesOf(Dir(n, n.mounting.gen), n.mounting.aside);
      }
    } else if TouchesDirs(s) {
      assert Next(n, s).quarantine == n.quarantine;
    } else {
      OtherStepsKeepDirs(n, s);
    }
    QuarantineGrows(c, c', i);
  }

  /** A stranded write is not gone: over every run whatsoever it is in some node's
      quarantine. */
  lemma {:induction false} StrandedIsQuarantined(rule: Rule, c: Cluster, steps: seq<Step>, c': Cluster)
    requires StrandedIsAside(c) && Run(rule, c, steps, c')
    ensures StrandedIsAside(c')
    decreases |steps|
  {
    if steps != [] {
      var next := After(rule, c, steps[0]);
      if steps[0].Local? {
        StrandedLocal(c, steps[0].i, steps[0].step);
      } else {
        QuarantineGrows(c, next, steps[0].i);
      }
      StrandedIsQuarantined(rule, next, steps[1..], c');
    }
  }

  // ---- handover ----

  /** Consumers reach, or are about to reach, generation g of the volume here. */
  ghost predicate Stages(n: Node, g: nat) {
    || ((n.mounting.Recorded? || n.mounting.Exposed?) && n.mounting.gen == g)
    || Reachable(n, g)
  }

  /** What a consumer reads at p through generation g of node n: the cached
      version when it is dirty, and the S3 object otherwise. */
  ghost function View(c: Cluster, n: Node, g: nat, p: FileId): set<WriteId> {
    if DirtyAt(n, g, p) then VersionAt(n, g, p) else Object(c, p)
  }

  ghost predicate DirtySomewhere(c: Cluster, p: FileId) {
    exists i, g: nat :: 0 <= i < |c.nodes| && DirtyAt(c.nodes[i], g, p)
  }

  ghost predicate HandoverInv(c: Cluster) {
    && (forall i :: 0 <= i < |c.nodes| ==> OrderlyInv(c.nodes[i]))
    // only the assigned node holds anything S3 does not
    && (forall i: nat :: i < |c.nodes| && c.owner != Some(i) ==> CleanNode(c.nodes[i]))
    // a dirty version includes everything accepted for its file and not stranded
    && (forall i, g: nat, p: FileId, w: WriteId ::
          0 <= i < |c.nodes| && DirtyAt(c.nodes[i], g, p) && (p, w) in c.accepted ==>
            (p, w) in c.stranded || w in VersionAt(c.nodes[i], g, p))
    // and so does the S3 object of a file that is dirty nowhere
    && (forall p: FileId, w: WriteId :: (p, w) in c.accepted ==>
          (p, w) in c.stranded || w in Object(c, p) || DirtySomewhere(c, p))
  }

  /** One node changes without creating dirty items, and those it loses leave their
      writes in S3 or stranded (a local step). */
  lemma HandoverMove(c: Cluster, c': Cluster, i: nat, aside: set<(nat, FileId)>)
    requires HandoverInv(c) && i < |c.nodes| == |c'.nodes| && KeepsDirty(c.nodes[i], c'.nodes[i], aside)
    requires OrderlyInv(c'.nodes[i])
    requires forall j: nat :: j < |c.nodes| && j != i ==> c'.nodes[j] == c.nodes[j]
    requires c'.objects == c.objects && c'.accepted == c.accepted && c.stranded <= c'.stranded
    requires forall g: nat, p: FileId, w: WriteId ::
               (g, p) in aside && DirtyAt(c.nodes[i], g, p) && w in VersionAt(c.nodes[i], g, p) ==>
                 w in Object(c, p) || (p, w) in c'.stranded
    requires c'.owner == c.owner || (CleanNode(c'.nodes[i]) && (c.owner == Some(i) || c.owner == None))
    ensures HandoverInv(c')
  {
    forall p: FileId, w: WriteId | (p, w) in c'.accepted
      ensures (p, w) in c'.stranded || w in Object(c', p) || DirtySomewhere(c', p)
    {
      if (p, w) !in c.stranded && w !in Object(c, p) {
        var j, g: nat :| 0 <= j < |c.nodes| && DirtyAt(c.nodes[j], g, p);
        assert w in VersionAt(c.nodes[j], g, p);
        assert DirtyAt(c'.nodes[j], g, p) || (g, p) in aside;
      }
    }
  }

  lemma HandoverLocal(c: Cluster, i: nat, s: NodeStep)
    requires HandoverInv(c) && i < |c.nodes|
    requires Enabled(c.nodes[i], s) && NoRace(c.nodes[i], s) && Orderly(c.nodes[i], s)
    ensures HandoverInv(AfterLocal(c, i, s))
  {
    var n := c.nodes[i];
    OrderlyStep(n, s);
    StepKeepsDirty(n, s);
    if s.FinishUnmount? && ReportsSuccess(n.unmounts[s.id]) {
      // the generation last mounted, or every one, has been found clean
      assert Settled(n, n.unmounts[s.id]) && CleanNode(n);
    }
    forall g: nat, p: FileId, w: WriteId | (g, p) in Aside(n, s) && DirtyAt(n, g, p) && w in VersionAt(n, g, p)
      ensures w in Object(c, p) || (p, w) in AfterLocal(c, i, s).stranded
    {
      var q := (g, p);
      assert w !in Object(c, p) ==> (q.1, w) in StrandedBy(c, i, s);
    }
    HandoverMove(c, AfterLocal(c, i, s), i, Aside(n, s));
  }

  /** Dirty data and reachable VFSes are all in one generation of one node. */
  lemma OneDirtyGeneration(c: Cluster, j: nat, g: nat, p: FileId, i: nat, g': nat)
    requires HandoverInv(c) && j < |c.nodes| && DirtyAt(c.nodes[j], g, p)
    requires i < |c.nodes| && c.owner == Some(i) && Reachable(c.nodes[i], g')
    ensures j == i && g == g'
  {
  }

  lemma NewVersionHasEverything(c: Cluster, i: nat, g: nat, p: FileId, w: WriteId, v: WriteId)
    requires HandoverInv(c) && i < |c.nodes| && c.owner == Some(i) && Reachable(c.nodes[i], g)
    requires (p, v) in AfterWrite(c, i, g, p, w).accepted
    ensures (p, v) in c.stranded || v in VersionAt(AfterWrite(c, i, g, p, w).nodes[i], g, p)
  {
    if v != w && !DirtyAt(c.nodes[i], g, p) && DirtySomewhere(c, p) {
      var j, g': nat :| 0 <= j < |c.nodes| && DirtyAt(c.nodes[j], g', p);
      OneDirtyGeneration(c, j, g', p, i, g);
    }
  }

  lemma HandoverWrite(c: Cluster, i: nat, g: nat, p: FileId, w: WriteId)
    requires HandoverInv(c) && i < |c.nodes| && c.owner == Some(i)
    requires CanWrite(c.nodes[i], g, p) && QuietWrite(c.nodes[i], g, p)
    ensures HandoverInv(AfterWrite(c, i, g, p, w))
  {
    var c' := AfterWrite(c, i, g, p, w);
    OrderlyWrite(c.nodes[i], g, p, w, Object(c, p));
    assert DirtyAt(c'.nodes[i], g, p);
    forall q | DirtySomewhere(c, q)
      ensures DirtySomewhere(c', q)
    {
      var j, h: nat :| 0 <= j < |c.nodes| && DirtyAt(c.nodes[j], h, q);
      assert DirtyAt(c'.nodes[j], h, q);
    }
    forall j, h: nat, q: FileId, v: WriteId | 0 <= j < |c'.nodes| && DirtyAt(c'.nodes[j], h, q) && (q, v) in c'.accepted
      ensures (q, v) in c'.stranded || v in VersionAt(c'.nodes[j], h, q)
    {
      if j == i && h == g && q == p {
        NewVersionHasEverything(c, i, g, p, w, v);
      } else {
        assert DirtyAt(c.nodes[j], h, q) && VersionAt(c'.nodes[j], h, q) == VersionAt(c.nodes[j], h, q);
        OneDirtyGeneration(c, j, h, q, i, g);
      }
    }
  }

  lemma HandoverUpload(c: Cluster, i: nat, g: nat, p: FileId)
    requires HandoverInv(c) && i < |c.nodes| && DirtyAt(c.nodes[i], g, p)
    ensures HandoverInv(AfterUpload(c, i, g, p))
  {
    var c' := AfterUpload(c, i, g, p);
    OrderlyUpload(c.nodes[i], g, p);
    forall j, h: nat, q: FileId | 0 <= j < |c'.nodes| && DirtyAt(c'.nodes[j], h, q)
      ensures DirtyAt(c.nodes[j], h, q) && VersionAt(c'.nodes[j], h, q) == VersionAt(c.nodes[j], h, q)
    {
    }
    forall q | DirtySomewhere(c, q) && q != p
      ensures DirtySomewhere(c', q)
    {
      var j, h: nat :| 0 <= j < |c.nodes| && DirtyAt(c.nodes[j], h, q);
      assert DirtyAt(c'.nodes[j], h, q);
    }
  }

  lemma HandoverStep(c: Cluster, step: Step)
    requires HandoverInv(c) && Allowed(OrderlyRun, c, step)
    ensures HandoverInv(After(OrderlyRun, c, step))
  {
    match step {
      case Local(i, s) => HandoverLocal(c, i, s);
      case Write(i, g, p, w) => HandoverWrite(c, i, g, p, w);
      case Upload(i, g, p) => HandoverUpload(c, i, g, p);
      case Assign(i) => HandoverMove(c, c.(owner := Some(i)), i, {});
      case ForceUnstage(_) => // not part of an orderly run
    }
  }

  lemma {:induction false} HandoverRun(c: Cluster, steps: seq<Step>, c': Cluster)
    requires HandoverInv(c) && Run(OrderlyRun, c, steps, c')
    ensures HandoverInv(c')
    decreases |steps|
  {
    if steps != [] {
      HandoverStep(c, steps[0]);
      HandoverRun(After(OrderlyRun, c, steps[0]), steps[1..], c');
    }
  }

  /** Over every orderly run of any number of nodes: where the assigned node
      stages the volume, consumers see every accepted write, except those that were
      set aside as corrupt while S3 lacked them, and no other node holds a write
      that S3 does not. */
  lemma HandoverIsSafe(size: nat, steps: seq<Step>, c: Cluster, i: nat, g: nat)
    requires Run(OrderlyRun, Init(size), steps, c)
    requires i < |c.nodes| && c.owner == Some(i) && Stages(c.nodes[i], g)
    ensures forall p: FileId, w: WriteId :: (p, w) in c.accepted ==>
              w in View(c, c.nodes[i], g, p) || ((p, w) in c.stranded && Quarantined(c, w))
    ensures forall j: nat :: j < |c.nodes| && j != i ==> CleanNode(c.nodes[j])
  {
    HandoverRun(Init(size), steps, c);
    StrandedIsQuarantined(OrderlyRun, Init(size), steps, c);
    forall p: FileId, w: WriteId | (p, w) in c.accepted
      ensures w in View(c, c.nodes[i], g, p) || (p, w) in c.stranded
    {
      StagedViewIsComplete(c, i, g, p, w);
    }
  }

  lemma StagedViewIsComplete(c: Cluster, i: nat, g: nat, p: FileId, w: WriteId)
    requires HandoverInv(c) && i < |c.nodes| && c.owner == Some(i) && Stages(c.nodes[i], g) && (p, w) in c.accepted
    ensures w in View(c, c.nodes[i], g, p) || (p, w) in c.stranded
  {
  }

  /** Over every orderly run no upload ever replaces a write another one brought:
      each accepted write is in its S3 object now, in a cache, or was set aside
      while S3 lacked it. */
  lemma OrderlyRunsLoseNothingFromS3(size: nat, steps: seq<Step>, c: Cluster, p: FileId, w: WriteId)
    requires Run(OrderlyRun, Init(size), steps, c) && (p, w) in c.accepted
    ensures w in Object(c, p) || Cached(c, p, w) || ((p, w) in c.stranded && Quarantined(c, w))
  {
    HandoverRun(Init(size), steps, c);
    StrandedIsQuarantined(OrderlyRun, Init(size), steps, c);
    InS3OrCached(c, p, w);
  }

  lemma InS3OrCached(c: Cluster, p: FileId, w: WriteId)
    requires HandoverInv(c) && (p, w) in c.accepted
    ensures w in Object(c, p) || Cached(c, p, w) || (p, w) in c.stranded
  {
    if (p, w) !in c.stranded && w !in Object(c, p) {
      var i, g: nat :| 0 <= i < |c.nodes| && DirtyAt(c.nodes[i], g, p);
      assert w in VersionAt(c.nodes[i], g, p);
    }
  }

  /** No step of the run makes a node's name map forget the generation last mounted
      there (NodeCache.Slips). */
  ghost predicate MapsHold(c: Cluster, steps: seq<Step>, c': Cluster)
    requires Run(OrderlyRun, c, steps, c')
    decreases |steps|
  {
    steps == [] || (&& (steps[0].Local? ==> !Slips(c.nodes[steps[0].i], steps[0].step))
                    && MapsHold(After(OrderlyRun, c, steps[0]), steps[1..], c'))
  }

  ghost predicate MapsRight(c: Cluster) {
    forall i :: 0 <= i < |c.nodes| ==> MapRight(c.nodes[i])
  }

  lemma {:induction false} MapsHoldKeepsThemRight(c: Cluster, steps: seq<Step>, c': Cluster)
    requires Run(OrderlyRun, c, steps, c') && MapsHold(c, steps, c') && MapsRight(c)
    ensures MapsRight(c')
    decreases |steps|
  {
    if steps != [] {
      if steps[0].Local? {
        MapKeptExactly(c.nodes[steps[0].i], steps[0].step);
      }
      MapsHoldKeepsThemRight(After(OrderlyRun, c, steps[0]), steps[1..], c');
    }
  }

  lemma WrittenAtHome(n: Node, g: nat, p: FileId)
    requires OrderlyInv(n) && (Stages(n, g) || DirtyAt(n, g, p))
    ensures n.home == Some(g)
  {
  }

  lemma NodeAfter(size: nat, steps: seq<Step>, c: Cluster, i: nat)
    requires Run(OrderlyRun, Init(size), steps, c) && MapsHold(Init(size), steps, c) && i < |c.nodes|
    ensures OrderlyInv(c.nodes[i]) && MapRight(c.nodes[i])
  {
    HandoverRun(Init(size), steps, c);
    MapsHoldKeepsThemRight(Init(size), steps, c);
  }

  /** Over every orderly run in which no map was made to forget: whatever a consumer
      can write to, or has written and S3 lacks, is in the generation last mounted,
      and a driver that crashes now resumes on it exactly when the map is neither
      being rewritten at the crash nor unreadable after it (or the generation is 0,
      the default). */
  lemma RestartResumesTheWrittenCache(size: nat, steps: seq<Step>, c: Cluster, i: nat, g: nat, p: FileId,
                                      readable: bool)
    requires Run(OrderlyRun, Init(size), steps, c) && MapsHold(Init(size), steps, c)
    requires i < |c.nodes| && (Stages(c.nodes[i], g) || DirtyAt(c.nodes[i], g, p))
    ensures c.nodes[i].home == Some(g)
    ensures ReadGen(Next(c.nodes[i], Crash), readable) == g <==> (readable && !c.nodes[i].torn) || g == 0
  {
    NodeAfter(size, steps, c, i);
    WrittenAtHome(c.nodes[i], g, p);
    CrashReadsTheMap(c.nodes[i], readable);
  }

  /** And one step that makes the map forget is enough: a restart after it resumes
      elsewhere, whatever is written to or dirty by then. */
  lemma ASlipStrandsTheWrittenCache(size: nat, steps: seq<Step>, c: Cluster, i: nat, s: NodeStep, g: nat, p: FileId)
    requires Run(OrderlyRun, Init(size), steps, c) && MapsHold(Init(size), steps, c)
    requires i < |c.nodes| && Enabled(c.nodes[i], s) && NoRace(c.nodes[i], s) && Orderly(c.nodes[i], s)
    requires Stages(Next(c.nodes[i], s), g) || DirtyAt(Next(c.nodes[i], s), g, p)
    ensures ReadGen(Next(c.nodes[i], s), true) == g <==> !Slips(c.nodes[i], s) && (!Next(c.nodes[i], s).torn || g == 0)
  {
    NodeAfter(size, steps, c, i);
    OrderlyStep(c.nodes[i], s);
    WrittenAtHome(Next(c.nodes[i], s), g, p);
    ASlipMisleads(c.nodes[i], s, g);
  }
}
