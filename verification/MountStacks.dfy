/** Clearing a stack of mounts and re-binding a consumer: unmountHostStack,
    ensureStagingServing and rebindConsumerMount (pkg/driver/node_s3.go).

    `known(i)` says whether the i-th reading of the host mount table could be
    trusted and `works(i)` whether the i-th unmount succeeded; a trusted reading is
    taken to be exact, and nobody else mounts or unmounts meanwhile. */
module MountStacks {
  import opened Basics
  import opened MountInfo

  const MAX_UNWIND := 10

  /** strings.Contains(fsType, "fuse"). */
  predicate IsFuse(fsType: string) {
    IndexOf(fsType, "fuse") >= 0
  }

  /** Said without it: on top of the stack is a filesystem with "fuse" in its type. */
  ghost predicate ServesFuse(stack: seq<HostMount>) {
    && stack != []
    && var t := stack[|stack| - 1].fsType;
       exists i :: 0 <= i <= |t| && "fuse" <= t[i..]
  }

  lemma IsFuseExactly(m: HostMount)
    ensures IsFuse(m.fsType) <==> ServesFuse([m])
  {
    var t := m.fsType;
    if IsFuse(t) {
      assert "fuse" <= t[IndexOf(t, "fuse")..];
    }
  }

  /** One verifyS3StagingLive: the mount table could be read, and statfs answered. */
  datatype Look = Look(tableKnown: bool, statfsOk: bool)

  class Host {
    var stacks: map<string, seq<HostMount>>   // the host's mounts; the last one is topmost

    constructor (stacks: map<string, seq<HostMount>>)
      ensures this.stacks == stacks
    {
      this.stacks := stacks;
    }

    function At(path: string): seq<HostMount>
      reads this
    {
      if path in stacks then stacks[path] else []
    }

    method Push(path: string, m: HostMount)
      modifies this
      ensures At(path) == old(At(path)) + [m]
      ensures forall q :: q != path ==> At(q) == old(At(q))
    {
      stacks := stacks[path := At(path) + [m]];
    }

    /** umount: detaches the topmost mount, if it succeeds. */
    method UnmountOnce(path: string, works: bool) returns (ok: bool)
      requires At(path) != []
      modifies this
      ensures ok == works
      ensures At(path) == if works then old(At(path))[..|old(At(path))| - 1] else old(At(path))
      ensures forall q :: q != path ==> At(q) == old(At(q))
    {
      if works {
        stacks := stacks[path := At(path)[..|At(path)| - 1]];
      }
      return works;
    }

    method UnmountHostStack(path: string, known: nat -> bool, works: nat -> bool) returns (ok: bool)
      modifies this
      // success is a cleared path; in any case only the top of this one stack went
      ensures ok ==> At(path) == [] && forall i: nat :: i <= |old(At(path))| ==> known(i)
      ensures At(path) <= old(At(path)) && |At(path)| >= |old(At(path))| - 10
      ensures forall q :: q != path ==> At(q) == old(At(q))
      // with every reading and unmount working: nine are cleared, ten are too many
      ensures (forall i: nat :: i < 10 ==> known(i) && works(i)) ==>
                && (ok <==> |old(At(path))| <= 9)
                && |At(path)| == if |old(At(path))| <= 10 then 0 else |old(At(path))| - 10
    {
      for i := 0 to MAX_UNWIND
        invariant At(path) <= old(At(path)) && |At(path)| == |old(At(path))| - i
        invariant forall q :: q != path ==> At(q) == old(At(q))
        invariant forall j: nat :: j < i ==> known(j)
      {
        if !known(i) {
          return false;
        }
        if At(path) == [] {
          return true;
        }
        var detached := UnmountOnce(path, works(i));
        if !detached {
          return false;
        }
      }
      return false;
    }

    /** verifyS3StagingLive: a FUSE mount on top in the host table, and statfs
        answers. */
    predicate StagingLive(staging: string, look: Look)
      reads this
    {
      look.tableKnown && At(staging) != [] && IsFuse(At(staging)[|At(staging)| - 1].fsType) && look.statfsOk
    }

    lemma LiveExactly(staging: string, look: Look)
      ensures StagingLive(staging, look) <==> look.tableKnown && look.statfsOk && ServesFuse(At(staging))
    {
      if At(staging) != [] {
        IsFuseExactly(At(staging)[|At(staging)| - 1]);
      }
    }

    /** ensureStagingServing. It looks twice; `session` is the volume's live session,
        if it has one, and Reexpose unbinds the staging path and then binds the
        session there, if that works. */
    method EnsureStagingServing(staging: string, first: Look, second: Look, session: Option<HostMount>, exposeOk: bool)
      returns (ok: bool)
      modifies this
      // success is a live FUSE mount on top at the staging path
      ensures ok ==>
                && ServesFuse(At(staging))
                && ((first.tableKnown && first.statfsOk) || (second.tableKnown && second.statfsOk))
      // it is found there, and left alone
      ensures first.tableKnown && first.statfsOk && ServesFuse(old(At(staging))) ==> ok && stacks == old(stacks)
      // or the session is put in its place
      ensures !(first.tableKnown && first.statfsOk && ServesFuse(old(At(staging)))) && session.Some? ==>
                && (ok <==> second.tableKnown && second.statfsOk && exposeOk && ServesFuse([session.value]))
                && At(staging) == if exposeOk then [session.value] else []
      // or it is looked for once more
      ensures !(first.tableKnown && first.statfsOk && ServesFuse(old(At(staging)))) && session.None? ==>
                stacks == old(stacks) && (ok <==> second.tableKnown && second.statfsOk && ServesFuse(At(staging)))
      ensures forall q :: q != staging ==> At(q) == old(At(q))
    {
      LiveExactly(staging, first);
      if StagingLive(staging, first) {
        return true;
      }
      if session.Some? {
        stacks := stacks[staging := if exposeOk then [session.value] else []];
      }
      LiveExactly(staging, second);
      return StagingLive(staging, second);
    }

    /** rebindConsumerMount. */
    method RebindConsumerMount(staging: string, target: string, pvName: string, published: bool,
                               known: nat -> bool, works: nat -> bool,
                               first: Look, second: Look, session: Option<HostMount>, exposeOk: bool, bindOk: bool)
      returns (ok: bool)
      requires staging != target
      modifies this
      // a re-bound consumer has exactly one mount: the staging path's live FUSE device
      ensures ok && pvName != "" && published ==>
                && At(staging) != [] && At(target) == [At(staging)[|At(staging)| - 1]]
                && ServesFuse(At(target))
      // otherwise nothing fresh is ever stacked on something stale
      ensures !ok ==> At(target) <= old(At(target))
      // and with everything working it does re-bind
      ensures (&& pvName != "" && published && bindOk && |old(At(target))| <= 9
               && (forall i: nat :: i < 10 ==> known(i) && works(i))
               && first.tableKnown && first.statfsOk && ServesFuse(old(At(staging)))) ==> ok
      ensures pvName == "" || !published ==> stacks == old(stacks) && ok == (pvName != "")
      ensures forall q :: q != target && q != staging ==> At(q) == old(At(q))
    {
      if pvName == "" {
        return false;
      }
      if !published {
        return true;
      }
      var cleared := UnmountHostStack(target, known, works);
      if !cleared {
        return false;
      }
      var serving := EnsureStagingServing(staging, first, second, session, exposeOk);
      if !serving || !bindOk {
        return false;
      }
      Push(target, At(staging)[|At(staging)| - 1]);
      return true;
    }
  }
}
