/** Whole mounts and unmounts as runs of the cluster, the pieces from which module
    Hazards builds its runs. */
module Runs {
  import opened Basics
  import opened CacheDirs
  import opened NodeCache
  import opened Cluster
  import DirtyScan
  import VfsNames

  lemma {:induction false} Extend(rule: Rule, c: Cluster, steps: seq<Step>, c': Cluster, step: Step)
    requires Run(rule, c, steps, c') && Allowed(rule, c', step)
    ensures Run(rule, c, steps + [step], After(rule, c', step))
    decreases |steps|
  {
    if steps != [] {
      Extend(rule, After(rule, c, steps[0]), steps[1..], c', step);
      assert (steps + [step])[1..] == steps[1..] + [step];
    }
  }

  lemma Then(rule: Rule, start: Cluster, steps: seq<Step>, c: Cluster, step: Step)
    returns (steps': seq<Step>, c': Cluster)
    requires Run(rule, start, steps, c) && Allowed(rule, c, step)
    ensures Run(rule, start, steps', c') && c' == After(rule, c, step)
  {
    Extend(rule, start, steps, c, step);
    steps', c' := steps + [step], After(rule, c, step);
  }

  function Put(c: Cluster, i: nat, n: Node): Cluster
    requires i < |c.nodes|
  {
    c.(nodes := c.nodes[i := n])
  }

  lemma ApplyLocal(rule: Rule, start: Cluster, steps: seq<Step>, c: Cluster, i: nat, s: NodeStep)
    returns (steps': seq<Step>, c': Cluster)
    requires Run(rule, start, steps, c)
    requires i < |c.nodes| && Enabled(c.nodes[i], s) && !s.FinishUnmount? && Aside(c.nodes[i], s) == {}
    requires s.BeginMount? ==> c.owner == Some(i)
    requires rule.AnyRun? || NoRace(c.nodes[i], s)
    requires rule.OrderlyRun? ==> Orderly(c.nodes[i], s)
    ensures Run(rule, start, steps', c') && c' == Put(c, i, Next(c.nodes[i], s))
  {
    steps', c' := Then(rule, start, steps, c, Local(i, s));
    assert StrandedBy(c, i, s) == {};
    assert c.stranded + {} == c.stranded;
  }

  /** A sweep under way, ended by a removal that fails. */
  function Unswept(n: Node): Node {
    if n.sweep.None? then n else n.(sweep := None, dirs := n.dirs[n.sweep.value := Dir(n, n.sweep.value)])
  }

  /** Whatever upkeep was under way on the node, ended without effect. */
  function Idled(n: Node): Node {
    Unswept(n.(torn := false, evict := NoPass))
  }

  lemma IdledKeepsDirs(n: Node)
    ensures forall g :: Dir(Idled(n), g) == Dir(n, g)
  {
  }

  lemma EndEviction(rule: Rule, start: Cluster, steps: seq<Step>, c: Cluster, i: nat)
    returns (steps': seq<Step>, c': Cluster)
    requires Run(rule, start, steps, c) && i < |c.nodes|
    ensures Run(rule, start, steps', c') && c' == Put(c, i, c.nodes[i].(evict := NoPass))
  {
    steps', c' := steps, c;
    if !c.nodes[i].evict.NoPass? {
      steps', c' := ApplyLocal(rule, start, steps, c, i, EvictEnd);
    }
  }

  lemma EndRewrite(rule: Rule, start: Cluster, steps: seq<Step>, c: Cluster, i: nat)
    returns (steps': seq<Step>, c': Cluster)
    requires Run(rule, start, steps, c) && i < |c.nodes|
    ensures Run(rule, start, steps', c') && c' == Put(c, i, c.nodes[i].(torn := false))
  {
    steps', c' := steps, c;
    if c.nodes[i].torn {
      steps', c' := ApplyLocal(rule, start, steps, c, i, MendMap);
    }
  }

  lemma EndSweep(rule: Rule, start: Cluster, steps: seq<Step>, c: Cluster, i: nat)
    returns (steps': seq<Step>, c': Cluster)
    requires Run(rule, start, steps, c) && i < |c.nodes|
    ensures Run(rule, start, steps', c') && c' == Put(c, i, Unswept(c.nodes[i]))
  {
    var n := c.nodes[i];
    steps', c' := steps, c;
    if n.sweep.Some? {
      var all := Dir(n, n.sweep.value).Keys;
      assert Removed(n, n.sweep.value, all) == Dir(n, n.sweep.value);
      steps', c' := ApplyLocal(rule, start, steps, c, i, SweepRemove(all));
    }
  }

  lemma Idle(rule: Rule, start: Cluster, steps: seq<Step>, c: Cluster, i: nat)
    returns (steps': seq<Step>, c': Cluster)
    requires Run(rule, start, steps, c) && i < |c.nodes|
    ensures Run(rule, start, steps', c') && c' == Put(c, i, Idled(c.nodes[i]))
    ensures forall g :: Dir(c'.nodes[i], g) == Dir(c.nodes[i], g)
  {
    steps', c' := EndEviction(rule, start, steps, c, i);
    steps', c' := EndRewrite(rule, start, steps', c', i);
    steps', c' := EndSweep(rule, start, steps', c', i);
    IdledKeepsDirs(c.nodes[i]);
  }

  // ---- a whole mount and a whole unmount as runs ----

  /** The generation's directory after a validation that could move nothing. */
  function Vetted(n: Node, g: nat): CacheDir {
    AfterValidation(Dir(n, g), Dir(n, g).Keys)
  }

  ghost function MountedNode(n: Node, g: nat): Node {
    n.(dirs := n.dirs[g := Vetted(n, g)], names := Some(g), serving := n.serving[g := true], manager := Some(g),
       mounting := NotMounting, home := Some(g))
  }

  lemma MountChecked(rule: Rule, start: Cluster, steps: seq<Step>, c: Cluster, i: nat)
    returns (steps': seq<Step>, c': Cluster)
    requires Run(rule, start, steps, c) && i < |c.nodes| && c.nodes[i].mounting.Named?
    requires rule.AnyRun? || !Reachable(c.nodes[i], c.nodes[i].mounting.gen)
    ensures var n, g := c.nodes[i], c.nodes[i].mounting.gen;
            && Run(rule, start, steps', c')
            && c' == Put(c, i, n.(mounting := Checked(g), dirs := n.dirs[g := Vetted(n, g)]))
  {
    var n, g := c.nodes[i], c.nodes[i].mounting.gen;
    var stuck := Dir(n, g).Keys;
    assert SetAsideWrites(Dir(n, g), stuck) == {} && n.quarantine + {} == n.quarantine;
    StepsOfValidation(n, stuck, stuck);
    steps', c' := ApplyLocal(rule, start, steps, c, i, Vet);
    assert ToMove(Dir(n, g)) <= stuck && Aside(c'.nodes[i], Validate(stuck, stuck)) == {};
    steps', c' := ApplyLocal(rule, start, steps', c', i, Validate(stuck, stuck));
  }

  lemma MountRecorded(rule: Rule, start: Cluster, steps: seq<Step>, c: Cluster, i: nat, save: Save)
    returns (steps': seq<Step>, c': Cluster)
    requires Run(rule, start, steps, c) && i < |c.nodes|
    requires c.nodes[i].mounting.Checked? && !c.nodes[i].torn && c.nodes[i].sweep.None?
    ensures var n, g := c.nodes[i], c.nodes[i].mounting.gen;
            && Run(rule, start, steps', c')
            && c' == Put(c, i, n.(mounting := Recorded(g), names := Entry(n, save, Some(g)), home := Some(g),
                                  serving := n.serving[g := g in n.serving && n.serving[g]]))
  {
    steps', c' := ApplyLocal(rule, start, steps, c, i, Register);
    steps', c' := ApplyLocal(rule, start, steps', c', i, Record(save));
  }

  lemma MountExposed(rule: Rule, start: Cluster, steps: seq<Step>, c: Cluster, i: nat, save: Save)
    returns (steps': seq<Step>, c': Cluster)
    requires Run(rule, start, steps, c) && i < |c.nodes|
    requires c.nodes[i].mounting.Checked? && !c.nodes[i].torn && c.nodes[i].sweep.None?
    ensures var n, g := c.nodes[i], c.nodes[i].mounting.gen;
            && Run(rule, start, steps', c')
            && c' == Put(c, i, n.(mounting := Exposed(g), names := Entry(n, save, Some(g)), home := Some(g),
                                  serving := n.serving[g := true]))
  {
    var n, g := c.nodes[i], c.nodes[i].mounting.gen;
    steps', c' := MountRecorded(rule, start, steps, c, i, save);
    steps', c' := ApplyLocal(rule, start, steps', c', i, Expose);
    assert c'.nodes[i].serving == n.serving[g := true];
  }

  /** From a settled name to a registered manager. */
  lemma FinishMount(rule: Rule, start: Cluster, steps: seq<Step>, c: Cluster, i: nat)
    returns (steps': seq<Step>, c': Cluster)
    requires Run(rule, start, steps, c) && i < |c.nodes|
    requires c.nodes[i].mounting.Named? && !c.nodes[i].torn && c.nodes[i].sweep.None?
    requires rule.AnyRun? || !Reachable(c.nodes[i], c.nodes[i].mounting.gen)
    ensures Run(rule, start, steps', c') && c' == Put(c, i, MountedNode(c.nodes[i], c.nodes[i].mounting.gen))
  {
    var n, g := c.nodes[i], c.nodes[i].mounting.gen;
    steps', c' := MountChecked(rule, start, steps, c, i);
    steps', c' := MountExposed(rule, start, steps', c', i, Saved);
    steps', c' := ApplyLocal(rule, start, steps', c', i, Adopt);
    assert c'.nodes[i] == MountedNode(n, g);
  }

  ghost predicate ReadyToMount(rule: Rule, c: Cluster, i: nat, g: nat) {
    && i < |c.nodes| && c.owner == Some(i)
    && var n := c.nodes[i];
       && n.mounting.NotMounting? && n.unmounts == map[] && !n.torn && n.sweep.None?
       && ReadGen(n, true) <= g <= ReadGen(n, true) + VfsNames.MAX_VFS_GENERATIONS
       && (rule.AnyRun? || !Reachable(n, g))
       && (rule.OrderlyRun? ==> MaySettle(n, g))
  }

  lemma MountNamed(rule: Rule, start: Cluster, steps: seq<Step>, c: Cluster, i: nat, g: nat)
    returns (steps': seq<Step>, c': Cluster)
    requires Run(rule, start, steps, c) && ReadyToMount(rule, c, i, g)
    ensures Run(rule, start, steps', c')
    ensures c' == Put(c, i, c.nodes[i].(mounting := Named(g)))
  {
    steps', c' := ApplyLocal(rule, start, steps, c, i, BeginMount(true));
    assert forall g', p :: DirtyAt(c'.nodes[i], g', p) ==> DirtyAt(c.nodes[i], g', p);
    steps', c' := ApplyLocal(rule, start, steps', c', i, Name(g));
  }

  /** A whole successful mount at generation g, as one run. */
  lemma MountAt(rule: Rule, start: Cluster, steps: seq<Step>, c: Cluster, i: nat, g: nat)
    returns (steps': seq<Step>, c': Cluster)
    requires Run(rule, start, steps, c) && ReadyToMount(rule, c, i, g)
    ensures Run(rule, start, steps', c')
    ensures c' == Put(c, i, MountedNode(c.nodes[i], g))
  {
    var n := c.nodes[i];
    steps', c' := MountNamed(rule, start, steps, c, i, g);
    assert Vetted(c'.nodes[i], g) == Vetted(n, g);
    steps', c' := FinishMount(rule, start, steps', c', i);
    assert c'.nodes[i] == MountedNode(n, g);
  }

  ghost predicate ReadyToUnmount(c: Cluster, i: nat) {
    && i < |c.nodes| && c.owner == Some(i)
    && var n := c.nodes[i];
       && n.mounting.NotMounting? && n.unmounts == map[] && n.manager.Some? && !n.slot
       && !DirLooksDirty(Dir(n, n.manager.value))
  }

  ghost predicate Unhindered(n: Node) {
    !n.torn && n.sweep.None? && n.evict.NoPass?
  }

  function Unmounting(n: Node, stage: UnmountStage): Node
    requires n.manager.Some?
  {
    n.(serving := map[], open := {}, unmounts := map[0 := Unmount(n.manager.value, FastPath, stage)])
  }

  /** Where the volume was last mounted, once the manager's generation is gone. */
  function HomeAfter(n: Node): Option<nat> {
    if n.home == n.manager then None else n.home
  }

  lemma UnmountBegun(rule: Rule, start: Cluster, steps: seq<Step>, c: Cluster, i: nat)
    returns (steps': seq<Step>, c': Cluster)
    requires Run(rule, start, steps, c) && ReadyToUnmount(c, i)
    ensures Run(rule, start, steps', c')
    ensures c' == Put(c, i, c.nodes[i].(unmounts := map[0 := Unmount(c.nodes[i].manager.value, FastPath, Waiting)]))
  {
    steps', c' := ApplyLocal(rule, start, steps, c, i, BeginUnmount(0, FastPath));
    assert c'.nodes[i].unmounts == map[0 := Unmount(c.nodes[i].manager.value, FastPath, Waiting)];
  }

  lemma UnmountDown(rule: Rule, start: Cluster, steps: seq<Step>, c: Cluster, i: nat)
    returns (steps': seq<Step>, c': Cluster)
    requires Run(rule, start, steps, c) && ReadyToUnmount(c, i) && Unhindered(c.nodes[i])
    ensures Run(rule, start, steps', c') && c' == Put(c, i, Unmounting(c.nodes[i], Down(true)))
  {
    steps', c' := UnmountBegun(rule, start, steps, c, i);
    assert Surviving(c'.nodes[i], {}) == c'.nodes[i].(serving := map[], open := {});
    steps', c' := ApplyLocal(rule, start, steps', c', i, Shut(0, true, {}));
    assert c'.nodes[i].unmounts == map[0 := Unmount(c.nodes[i].manager.value, FastPath, Down(true))];
  }

  /** The walk of a metadata tree without items. */
  const NO_ITEMS := DirtyScan.Folder([])

  lemma NoItemsWalk(dir: CacheDir)
    requires !DirLooksDirty(dir)
    ensures DirtyScan.Steady(NO_ITEMS) && DirtyScan.SaysClean(NO_ITEMS, dir)
  {
  }

  lemma UnmountJudged(rule: Rule, start: Cluster, steps: seq<Step>, c: Cluster, i: nat)
    returns (steps': seq<Step>, c': Cluster)
    requires Run(rule, start, steps, c) && ReadyToUnmount(c, i) && Unhindered(c.nodes[i])
    ensures Run(rule, start, steps', c') && c' == Put(c, i, Unmounting(c.nodes[i], Judged(true)))
  {
    var g := c.nodes[i].manager.value;
    steps', c' := UnmountDown(rule, start, steps, c, i);
    assert Dir(c'.nodes[i], g) == Dir(c.nodes[i], g);
    NoItemsWalk(Dir(c.nodes[i], g));
    steps', c' := ApplyLocal(rule, start, steps', c', i, Judge(0, true, NO_ITEMS));
    assert c'.nodes[i].unmounts == map[0 := Unmount(g, FastPath, Judged(true))];
  }

  lemma UnmountReclaimed(rule: Rule, start: Cluster, steps: seq<Step>, c: Cluster, i: nat)
    returns (steps': seq<Step>, c': Cluster)
    requires Run(rule, start, steps, c) && ReadyToUnmount(c, i) && Unhindered(c.nodes[i])
    ensures Run(rule, start, steps', c')
    ensures c' == Put(c, i, Unmounting(c.nodes[i], Reclaimed)
                            .(dirs := c.nodes[i].dirs[c.nodes[i].manager.value := map[]]))
  {
    var g := c.nodes[i].manager.value;
    steps', c' := UnmountJudged(rule, start, steps, c, i);
    assert Removed(c'.nodes[i], g, {}) == map[];
    steps', c' := ApplyLocal(rule, start, steps', c', i, Reclaim(0, {}));
    assert c'.nodes[i].unmounts == map[0 := Unmount(g, FastPath, Reclaimed)];
  }

  lemma UnmountForgotten(rule: Rule, start: Cluster, steps: seq<Step>, c: Cluster, i: nat)
    returns (steps': seq<Step>, c': Cluster)
    requires Run(rule, start, steps, c) && ReadyToUnmount(c, i) && Unhindered(c.nodes[i])
    ensures Run(rule, start, steps', c')
    ensures c' == Put(c, i, Unmounting(c.nodes[i], Forgotten)
                            .(dirs := c.nodes[i].dirs[c.nodes[i].manager.value := map[]], names := None,
                              home := HomeAfter(c.nodes[i])))
  {
    var g := c.nodes[i].manager.value;
    steps', c' := UnmountReclaimed(rule, start, steps, c, i);
    steps', c' := ApplyLocal(rule, start, steps', c', i, Forget(0, Saved));
    assert c'.nodes[i].unmounts == map[0 := Unmount(g, FastPath, Forgotten)];
  }

  /** A whole unmount that finds its own generation clean: unstage succeeds. */
  lemma FastUnmount(rule: Rule, start: Cluster, steps: seq<Step>, c: Cluster, i: nat)
    returns (steps': seq<Step>, c': Cluster)
    requires Run(rule, start, steps, c) && ReadyToUnmount(c, i) && Unhindered(c.nodes[i])
    ensures Run(rule, start, steps', c')
    ensures c' == Put(c, i, c.nodes[i].(dirs := c.nodes[i].dirs[c.nodes[i].manager.value := map[]], names := None,
                                        serving := map[], open := {}, manager := None, home := HomeAfter(c.nodes[i])))
                  .(owner := None)
  {
    steps', c' := UnmountForgotten(rule, start, steps, c, i);
    var n := c'.nodes[i];
    assert n.unmounts - {0} == map[];
    assert StrandedBy(c', i, FinishUnmount(0)) == {} && c'.stranded + {} == c'.stranded;
    steps', c' := Then(rule, start, steps', c', Local(i, FinishUnmount(0)));
  }
}
