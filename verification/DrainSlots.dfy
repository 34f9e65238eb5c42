/** The background-drain bookkeeping of S3SyncManager (pkg/driver/node_s3.go) and
    its on-disk markers (pkg/rclone/vfscache.go). */
module DrainSlots {

  // ---- specification state and operations ----

  datatype Drains = Drains(
    slots: set<string>,      // backgroundDrains: volumes with a drain running
    pending: set<string>,    // pendingDrains: drains a previous attempt left undone
    markers: set<string>)    // marker files, which survive the process

  /** SaveDrainPending and ClearDrainPending ignore their own failures: `works` says
      whether the file operation succeeded. */
  function Marked(markers: set<string>, v: string, works: bool): set<string> {
    if works then markers + {v} else markers
  }

  function Cleared(markers: set<string>, v: string, works: bool): set<string> {
    if works then markers - {v} else markers
  }

  function Started(d: Drains, v: string, works: bool): Drains {
    if v in d.slots then d else d.(slots := d.slots + {v}, markers := Marked(d.markers, v, works))
  }

  function Finished(d: Drains, v: string, drained: bool, works: bool): Drains {
    if drained
    then Drains(d.slots - {v}, d.pending - {v}, Cleared(d.markers, v, works))
    else Drains(d.slots - {v}, d.pending + {v}, Marked(d.markers, v, works))
  }

  /** A new process knows the markers, if the directory can be listed. */
  function Restarted(d: Drains, listed: bool): Drains {
    Drains({}, if listed then d.markers else {}, d.markers)
  }

  // ---- the driver's objects ----

  /** The marker directory: one file per volume, outliving any driver process. */
  class MarkerDir {
    var files: set<string>

    constructor ()
      ensures files == {}
    {
      files := {};
    }

    method Save(v: string, works: bool)
      modifies this
      ensures files == Marked(old(files), v, works)
    {
      if works {
        files := files + {v};
      }
    }

    method Clear(v: string, works: bool)
      modifies this
      ensures files == Cleared(old(files), v, works)
    {
      if works {
        files := files - {v};
      }
    }
  }

  class SyncManager {
    const disk: MarkerDir
    var backgroundDrains: set<string>
    var pendingDrains: set<string>

    ghost function State(): Drains
      reads this, disk
    {
      Drains(backgroundDrains, pendingDrains, disk.files)
    }

    /** NewS3SyncManager and loadPendingDrains. */
    constructor (disk: MarkerDir, listed: bool)
      ensures this.disk == disk
      ensures State() == Restarted(Drains({}, {}, disk.files), listed)
    {
      this.disk := disk;
      backgroundDrains, pendingDrains := {}, {};
      new;
      var ids := if listed then disk.files else {};
      while ids != {}
        invariant ids <= disk.files && backgroundDrains == {}
        invariant pendingDrains == if listed then disk.files - ids else {}
        invariant !listed ==> ids == {}
        invariant this.disk == disk && disk.files == old(disk.files)
        decreases ids
      {
        var id :| id in ids;
        pendingDrains := pendingDrains + {id};
        ids := ids - {id};
      }
    }

    /** Claims the one drain slot the volume has. */
    method StartBackgroundDrain(v: string, works: bool) returns (claimed: bool)
      modifies this`backgroundDrains, disk
      ensures claimed <==> v !in old(backgroundDrains)
      ensures State() == Started(old(State()), v, works)
    {
      if v in backgroundDrains {
        return false;
      }
      backgroundDrains := backgroundDrains + {v};
      disk.Save(v, works);
      return true;
    }

    /** Releases the slot; the marker goes only when the drain completed. */
    method FinishBackgroundDrain(v: string, drained: bool, works: bool)
      modifies this, disk
      ensures State() == Finished(old(State()), v, drained, works)
    {
      if v in backgroundDrains {
        backgroundDrains := backgroundDrains - {v};
      }
      if !drained {
        pendingDrains := pendingDrains + {v};
        disk.Save(v, works);
        return;
      }
      pendingDrains := pendingDrains - {v};
      disk.Clear(v, works);
    }

    /** setupS3Sync's gate: refuse while a drain runs and does not end in time,
        otherwise take a pending drain over from the marker. `waitEnded` says
        whether the running drain finished, with `drained`, within the wait;
        `saved` and `cleared` whether its marker and ours could be written. */
    method EnterSetup(v: string, waitEnded: bool, drained: bool, saved: bool, cleared: bool) returns (ok: bool)
      modifies this, disk
      ensures ok <==> v !in old(backgroundDrains) || waitEnded
      ensures !ok ==> State() == old(State())
      ensures ok ==> v !in backgroundDrains && v !in pendingDrains
      ensures ok ==> forall u :: u != v ==>
                (u in backgroundDrains <==> u in old(backgroundDrains))
                && (u in pendingDrains <==> u in old(pendingDrains))
                && (u in disk.files <==> u in old(disk.files))
      // the markers are those of the unfinished drains, except for one that could not be removed
      ensures ok && old(disk.files == backgroundDrains + pendingDrains) ==>
                && backgroundDrains + pendingDrains <= disk.files
                && (saved && cleared ==> disk.files == backgroundDrains + pendingDrains)
    {
      if v in backgroundDrains {
        if !waitEnded {
          return false;
        }
        FinishBackgroundDrain(v, drained, saved); // what the drain goroutine does while we wait
      }
      if v in pendingDrains {
        pendingDrains := pendingDrains - {v};
        disk.Clear(v, cleared);
      }
      return true;
    }
  }

  // ---- runs ----

  /** The bookkeeping together with the goroutines that act on it: `holders` run a
      drain and will release the slot; `taking` are setups between deleting the
      pending entry and, with the lock already released, clearing the marker. */
  datatype World = World(d: Drains, holders: multiset<string>, taking: set<string>)

  const FRESH := World(Drains({}, {}, {}), multiset{}, {})

  datatype Event =
    | Drain(v: string, works: bool)                   // cleanupS3Sync: starts a drain whatever the claim answered
    | Resume(v: string, works: bool)                  // resumeStrandedDrain: only if it claimed the slot
    | Finish(v: string, drained: bool, works: bool)   // a holder is done
    | TakeBegin(v: string)                            // setupS3Sync deletes the pending entry
    | TakeEnd(v: string, works: bool)                 // and clears the marker
    | Crash(listed: bool)                             // and the markers are listed at the next start

  predicate Possible(w: World, e: Event) {
    match e
    case Drain(_, _) => true
    case Resume(_, _) => true
    case Finish(v, _, _) => v in w.holders
    case TakeBegin(v) => v in w.d.pending
    case TakeEnd(v, _) => v in w.taking
    case Crash(_) => true
  }

  function Apply(w: World, e: Event): World
    requires Possible(w, e)
  {
    match e
    case Drain(v, works) => w.(d := Started(w.d, v, works), holders := w.holders + multiset{v})
    case Resume(v, works) => if v in w.d.slots then w
                             else w.(d := Started(w.d, v, works), holders := w.holders + multiset{v})
    case Finish(v, drained, works) => w.(d := Finished(w.d, v, drained, works), holders := w.holders - multiset{v})
    case TakeBegin(v) => w.(d := w.d.(pending := w.d.pending - {v}), taking := w.taking + {v})
    case TakeEnd(v, works) => w.(d := w.d.(markers := Cleared(w.d.markers, v, works)), taking := w.taking - {v})
    case Crash(listed) => World(Restarted(w.d, listed), multiset{}, {})
  }

  /** What holding the volume's lock, and finding the slot free, would give: no
      drain starts beside another or beside a takeover, no takeover beside a drain. */
  predicate Serialised(w: World, e: Event) {
    match e
    case Drain(v, _) => v !in w.d.slots && v !in w.taking
    case Resume(v, _) => v !in w.taking
    case TakeBegin(v) => v !in w.d.slots
    case _ => true
  }

  /** No marker that is needed fails to be written, and the start-up listing does
      not fail beside markers. */
  predicate MarkerKept(w: World, e: Event) {
    match e
    case Drain(v, works) => works || v in w.d.markers
    case Resume(v, works) => works || v in w.d.markers || v in w.d.slots
    case Crash(listed) => listed || w.d.markers == {}
    case _ => true
  }

  /** And none that is done with fails to be removed. */
  predicate MarkerDropped(w: World, e: Event) {
    match e
    case Finish(v, drained, works) => drained ==> works
    case TakeEnd(v, works) => works
    case _ => true
  }

  predicate Kept(w: World, e: Event) {
    Serialised(w, e) && MarkerKept(w, e) && MarkerDropped(w, e)
  }

  /** A marker for exactly the volumes with a slot, a pending entry or a takeover
      under way, and one holder for each slot. */
  ghost predicate Right(w: World) {
    w.d.markers == w.d.slots + w.d.pending + w.taking && OneHolder(w)
  }

  ghost predicate OneHolder(w: World) {
    forall v :: w.holders[v] == if v in w.d.slots then 1 else 0
  }

  ghost predicate Inv(w: World) {
    Right(w) && w.taking !! w.d.slots && w.taking !! w.d.pending
  }

  lemma KeptStep(w: World, e: Event)
    requires Inv(w) && Possible(w, e) && Kept(w, e)
    ensures Inv(Apply(w, e))
  {
  }

  ghost predicate SerialRun(w: World, events: seq<Event>, w': World)
    decreases |events|
  {
    if events == [] then w == w'
    else Possible(w, events[0]) && Kept(w, events[0]) && SerialRun(Apply(w, events[0]), events[1..], w')
  }

  lemma {:induction false} RunKeepsInv(w: World, events: seq<Event>, w': World)
    requires Inv(w) && SerialRun(w, events, w')
    ensures Inv(w')
    decreases |events|
  {
    if events != [] {
      KeptStep(w, events[0]);
      RunKeepsInv(Apply(w, events[0]), events[1..], w');
    }
  }

  ghost predicate StaysRight(w: World) {
    forall events, w' :: SerialRun(w, events, w') ==> Right(w')
  }

  lemma {:induction false} ShortRuns(w: World, e: Event)
    requires Possible(w, e) && Kept(w, e)
    ensures SerialRun(w, [], w) && SerialRun(w, [e], Apply(w, e))
  {
    assert [e][1..] == [];
    assert SerialRun(Apply(w, e), [], Apply(w, e));
  }

  /** A drain that starts beside a takeover, or a takeover that starts beside a
      drain, loses its marker when the takeover ends. */
  lemma TakeoverBesideADrain(w: World, v: string)
    requires v in w.taking && v in w.d.slots
    ensures !StaysRight(w)
  {
    ShortRuns(w, TakeEnd(v, true));
    assert !Right(Apply(w, TakeEnd(v, true)));
  }

  /** The bookkeeping stays right in every continuation of an event if and only if
      that event is serialised with the volume's other work and its marker
      operations succeed where they matter. */
  lemma BookkeepingKeptExactly(w: World, e: Event)
    requires Inv(w) && Possible(w, e)
    ensures StaysRight(Apply(w, e)) <==> Kept(w, e)
  {
    var w' := Apply(w, e);
    assert SerialRun(w', [], w');
    if Kept(w, e) {
      KeptStep(w, e);
      forall events, w'' | SerialRun(w', events, w'')
        ensures Right(w'')
      {
        RunKeepsInv(w', events, w'');
      }
    } else if Right(w') {
      assert !Serialised(w, e) && (e.Drain? || e.Resume? || e.TakeBegin?);
      assert e.Drain? && e.v in w.d.slots ==> w'.holders[e.v] == 2;
      TakeoverBesideADrain(w', e.v);
    }
  }

  /** A marker disappears only on a confirmed drain, or when a setup takes the
      volume over while its slot is free. */
  lemma MarkersGoOnlyWhenSafe(w: World, e: Event, v: string)
    requires Inv(w) && Possible(w, e) && Serialised(w, e)
    requires v in w.d.markers && v !in Apply(w, e).d.markers
    ensures e == Finish(v, true, true) || (e == TakeEnd(v, true) && v !in w.d.slots && v !in w.d.pending)
  {
    match e {
      case Finish(u, _, _) => assert u == v;
      case TakeEnd(u, _) => assert u == v && v in w.taking;
      case _ =>
    }
  }

  /** Over every serialised run with crashes and working markers: markers name
      exactly the volumes with unfinished drain work, each slot has one holder, and a
      crash at any point leaves a pending entry for every one of those volumes, if
      the markers can then be listed. */
  lemma MarkersMatchUnfinishedDrains(events: seq<Event>, w: World)
    requires SerialRun(FRESH, events, w)
    ensures w.d.markers == w.d.slots + w.d.pending + w.taking
    ensures forall v :: w.holders[v] == if v in w.d.slots then 1 else 0
    ensures Apply(w, Crash(true)).d.pending == w.d.slots + w.d.pending + w.taking
  {
    RunKeepsInv(FRESH, events, w);
  }

  // ---- a marker too many does no harm ----

  ghost predicate SafeInv(w: World) {
    && w.d.slots + w.d.pending + w.taking <= w.d.markers && OneHolder(w)
    && w.taking !! w.d.slots && w.taking !! w.d.pending
  }

  ghost predicate SafeRun(w: World, events: seq<Event>, w': World)
    decreases |events|
  {
    if events == [] then w == w'
    else && Possible(w, events[0]) && Serialised(w, events[0]) && MarkerKept(w, events[0])
         && SafeRun(Apply(w, events[0]), events[1..], w')
  }

  lemma SafeStep(w: World, e: Event)
    requires SafeInv(w) && Possible(w, e) && Serialised(w, e) && MarkerKept(w, e)
    ensures SafeInv(Apply(w, e))
  {
  }

  lemma {:induction false} SafeRunKeepsInv(w: World, events: seq<Event>, w': World)
    requires SafeInv(w) && SafeRun(w, events, w')
    ensures SafeInv(w')
    decreases |events|
  {
    if events != [] {
      SafeStep(w, events[0]);
      SafeRunKeepsInv(Apply(w, events[0]), events[1..], w');
    }
  }

  /** Over every serialised run in which only removals of markers may fail: no
      unfinished drain is ever without a marker, so a crash forgets none. */
  lemma NoDrainIsForgotten(events: seq<Event>, w: World)
    requires SafeRun(FRESH, events, w)
    ensures w.d.slots + w.d.pending + w.taking <= Apply(w, Crash(true)).d.pending
  {
    SafeRunKeepsInv(FRESH, events, w);
  }

  // ---- what goes wrong otherwise ----

  /** What the unserialised paths can do. recoverStrandedVolumes takes no volume
      lock, so its drain can start between cleanupS3Sync's check and its claim,
      whose answer is ignored: two holders, and the first one to finish frees the
      slot and drops the marker under the other. */
  lemma IgnoredClaimGivesTwoHolders(v: string)
    ensures var two := Apply(Apply(FRESH, Resume(v, true)), Drain(v, true));
            two.holders[v] == 2
            && var one := Apply(two, Finish(v, true, true));
               v in one.holders && v !in one.d.slots && v !in one.d.markers
  {
  }

  /** A drain that starts between the two halves of a takeover loses its marker:
      after a crash nothing records that it was unfinished. */
  lemma UnlockedClearLosesMarker(v: string)
    ensures var pending := Apply(Apply(Apply(FRESH, Resume(v, true)), Finish(v, false, true)), TakeBegin(v));
            var cleared := Apply(Apply(pending, Resume(v, true)), TakeEnd(v, true));
            v in cleared.d.slots && v !in cleared.d.markers && v !in Apply(cleared, Crash(true)).d.pending
  {
  }

  /** A marker that could not be written, or a start at which the markers could not
      be listed, forgets an unfinished drain as well. */
  lemma FailedMarkerForgetsADrain(v: string)
    ensures var unmarked := Apply(FRESH, Resume(v, false));
            v in unmarked.d.slots && v !in Apply(unmarked, Crash(true)).d.pending
    ensures var marked := Apply(FRESH, Resume(v, true));
            v in marked.d.slots && v in marked.d.markers && v !in Apply(marked, Crash(false)).d.pending
  {
  }
}
