/** ensureExclusiveVFSName and the rclone VFS registry it guards
    (pkg/rclone/syncmanager.go). */
module VfsRegistry {
  import opened VfsNames

  /** A mount record: the session path carries the volume, rclone the fs name. The
      record can outlive its VFS. */
  datatype Session = Session(volumeID: string, fsName: string, live: bool)

  function SessionsOf(records: map<string, Session>, volumeID: string): set<string> {
    set s | s in records && records[s].volumeID == volumeID
  }

  /** `some` is `records` with the `gone` sessions taken out, and the `dead` ones
      without their VFS. */
  ghost predicate Shrunk(some: map<string, Session>, records: map<string, Session>, gone: set<string>,
                         dead: set<string>)
  {
    && (forall s :: s in some <==> s in records && s !in gone)
    && (forall s :: s in some ==> some[s] == if s in dead then records[s].(live := false) else records[s])
  }

  lemma ShrunkByNone(some: map<string, Session>, records: map<string, Session>)
    requires Shrunk(some, records, {}, {})
    ensures some == records
  {
  }

  function Less(a: nat, b: nat): nat { if a < b then 0 else a - b }

  /** Those of the sessions that have a VFS, under this name. */
  ghost function Named(records: map<string, Session>, sessions: set<string>, name: string): set<string> {
    set s | s in sessions && s in records && records[s].live && records[s].fsName == name
  }

  /** The VFS a session has. */
  function VfsOf(session: Session): multiset<string> {
    if session.live then multiset{session.fsName} else multiset{}
  }

  lemma NamedAdd(records: map<string, Session>, sessions: set<string>, s: string)
    requires s in records && s !in sessions
    ensures forall n :: |Named(records, sessions + {s}, n)| == |Named(records, sessions, n)| + VfsOf(records[s])[n]
  {
    forall n
      ensures |Named(records, sessions + {s}, n)| == |Named(records, sessions, n)| + VfsOf(records[s])[n]
    {
      if records[s].live && records[s].fsName == n {
        assert Named(records, sessions + {s}, n) == Named(records, sessions, n) + {s};
      } else {
        assert Named(records, sessions + {s}, n) == Named(records, sessions, n);
      }
    }
  }

  /** `after` is `before` less one VFS for each of the sessions, by name. */
  ghost predicate Ended(before: multiset<string>, after: multiset<string>,
                        records: map<string, Session>, sessions: set<string>)
  {
    forall n :: after[n] == Less(before[n], |Named(records, sessions, n)|)
  }

  lemma EndOne(before: multiset<string>, after: multiset<string>,
               records: map<string, Session>, sessions: set<string>, s: string)
    requires Ended(before, after, records, sessions) && s in records && s !in sessions
    ensures Ended(before, after - VfsOf(records[s]), records, sessions + {s})
  {
    NamedAdd(records, sessions, s);
  }

  lemma EndingShrinks(before: multiset<string>, after: multiset<string>,
                      records: map<string, Session>, sessions: set<string>)
    requires Ended(before, after, records, sessions)
    ensures after <= before && (sessions == {} ==> after == before)
  {
    assert sessions == {} ==> forall n :: Named(records, sessions, n) == {};
  }

  lemma EndNone(vfses: multiset<string>, records: map<string, Session>)
    ensures Ended(vfses, vfses, records, {})
  {
    assert forall n :: Named(records, {}, n) == {};
  }

  /** No session of the volume has its VFS under this name. */
  predicate Foreign(records: map<string, Session>, volumeID: string, name: string) {
    forall s :: s in SessionsOf(records, volumeID) ==> records[s].fsName != name
  }

  ghost predicate OthersUntouched(records: map<string, Session>, volumeID: string,
                                  before: multiset<string>, after: multiset<string>)
  {
    forall n :: Foreign(records, volumeID, n) ==> after[n] == before[n]
  }

  predicate SubRecords(some: map<string, Session>, records: map<string, Session>) {
    forall s :: s in some ==> s in records && some[s] == records[s].(live := some[s].live)
  }

  lemma EndingTouchesNoOther(records: map<string, Session>, volumeID: string, sessions: set<string>,
                             before: multiset<string>, after: multiset<string>)
    requires sessions <= SessionsOf(records, volumeID) && Ended(before, after, records, sessions)
    ensures OthersUntouched(records, volumeID, before, after)
  {
    forall n | Foreign(records, volumeID, n)
      ensures after[n] == before[n]
    {
      assert Named(records, sessions, n) == {};
    }
  }

  lemma OthersStayUntouched(records: map<string, Session>, some: map<string, Session>, volumeID: string,
                            first: multiset<string>, before: multiset<string>, after: multiset<string>)
    requires SubRecords(some, records) && OthersUntouched(records, volumeID, first, before)
    requires OthersUntouched(some, volumeID, before, after)
    ensures OthersUntouched(records, volumeID, first, after)
  {
    forall n | Foreign(records, volumeID, n)
      ensures after[n] == first[n]
    {
      assert forall s :: s in SessionsOf(some, volumeID) ==> s in SessionsOf(records, volumeID);
      assert Foreign(some, volumeID, n);
    }
  }

  /** What mount/unmount does: it shuts the VFS down and drops the record; or it fails
      after the shutdown, and the record stays; or it runs out of time before. */
  datatype Outcome = Done | HalfDone | TimedOut

  /** How rclone answers while sessions are being shut down: whether mount/listmounts
      answers, and which sessions' mount/unmount runs out of time or is half done. */
  datatype Shutdown = Shutdown(listed: bool, stuck: set<string>, halved: set<string>) {
    function For(s: string): Outcome {
      if s in stuck then TimedOut else if s in halved then HalfDone else Done
    }
  }

  /** The sessions ShutdownSessions tries: those listed, and those its caller knows. */
  function Tried(shutdown: Shutdown, records: map<string, Session>, volumeID: string, known: set<string>): set<string> {
    (if shutdown.listed then SessionsOf(records, volumeID) else {}) + (known - {""})
  }

  /** The ones whose VFS it really ends. */
  function EndedBy(shutdown: Shutdown, records: map<string, Session>, volumeID: string, known: set<string>): set<string>
  {
    (Tried(shutdown, records, volumeID, known) * records.Keys) - shutdown.stuck
  }

  /** The ones it counts as ended. */
  function CountedBy(shutdown: Shutdown, records: map<string, Session>, volumeID: string, known: set<string>)
    : set<string>
  {
    Tried(shutdown, records, volumeID, known) * (records.Keys + shutdown.stuck)
  }

  /** The records after one mount/unmount. */
  function Unmounted(records: map<string, Session>, s: string, outcome: Outcome): map<string, Session> {
    if s !in records || outcome.TimedOut? then records
    else if outcome.Done? then records - {s}
    else records[s := records[s].(live := false)]
  }

  /** The records once these sessions were ended, some only by half. */
  ghost predicate EndedRecords(some: map<string, Session>, records: map<string, Session>, gone: set<string>,
                               shutdown: Shutdown)
  {
    Shrunk(some, records, gone - shutdown.halved, gone * shutdown.halved)
  }

  lemma ShrinkStep(some: map<string, Session>, records: map<string, Session>, gone: set<string>, shutdown: Shutdown,
                   s: string)
    requires EndedRecords(some, records, gone, shutdown) && s !in gone
    ensures (s in some <==> s in records) && (s in some ==> some[s] == records[s])
    ensures EndedRecords(Unmounted(some, s, shutdown.For(s)), records,
                         if s in shutdown.stuck || s !in records then gone else gone + {s}, shutdown)
  {
  }

  lemma NothingEnded(some: map<string, Session>, records: map<string, Session>, shutdown: Shutdown)
    ensures EndedRecords(records, records, {}, shutdown)
    ensures EndedRecords(some, records, {}, shutdown) ==> some == records
  {
    if EndedRecords(some, records, {}, shutdown) {
      ShrunkByNone(some, records);
    }
  }

  lemma NoneCounted(shutdown: Shutdown, records: map<string, Session>, volumeID: string, known: set<string>)
    requires |CountedBy(shutdown, records, volumeID, known)| == 0
    ensures EndedBy(shutdown, records, volumeID, known) == {}
  {
    assert EndedBy(shutdown, records, volumeID, known) <= CountedBy(shutdown, records, volumeID, known);
  }

  /** How far ShutdownSessions has got with all it tries: which of the recorded ones
      are gone, and how many are counted. */
  ghost predicate Progress(all: set<string>, held: set<string>, stuck: set<string>, todo: set<string>,
                           gone: set<string>, ended: nat)
  {
    gone == (all - todo) * held - stuck && ended == |(all - todo) * (held + stuck)|
  }

  lemma ProgressEnd(all: set<string>, held: set<string>, stuck: set<string>, gone: set<string>, ended: nat)
    requires Progress(all, held, stuck, {}, gone, ended)
    ensures gone == all * held - stuck && ended == |all * (held + stuck)|
  {
    assert all - {} == all;
  }

  lemma OneMoreGone(all: set<string>, held: set<string>, stuck: set<string>, todo: set<string>, s: string)
    requires s in todo && todo <= all
    ensures (all - (todo - {s})) * held - stuck ==
            if s in stuck || s !in held then (all - todo) * held - stuck else (all - todo) * held - stuck + {s}
  {
  }

  lemma OneMoreCounted(all: set<string>, counted: set<string>, todo: set<string>, s: string)
    requires s in todo && todo <= all
    ensures |(all - (todo - {s})) * counted| == |(all - todo) * counted| + if s in counted then 1 else 0
  {
    if s in counted {
      assert (all - (todo - {s})) * counted == (all - todo) * counted + {s};
    } else {
      assert (all - (todo - {s})) * counted == (all - todo) * counted;
    }
  }

  lemma ProgressStep(all: set<string>, held: set<string>, stuck: set<string>, todo: set<string>, gone: set<string>,
                     ended: nat, s: string)
    requires Progress(all, held, stuck, todo, gone, ended) && s in todo && todo <= all
    ensures s !in gone
    ensures Progress(all, held, stuck, todo - {s}, if s in stuck || s !in held then gone else gone + {s},
                     if s in stuck || s in held then ended + 1 else ended)
  {
    OneMoreGone(all, held, stuck, todo, s);
    OneMoreCounted(all, held + stuck, todo, s);
  }

  lemma OneTried(before: map<string, Session>, gone: set<string>, shutdown: Shutdown, s: string,
                 vfses0: multiset<string>, vfses: multiset<string>, records: map<string, Session>)
    requires EndedRecords(records, before, gone, shutdown) && Ended(vfses0, vfses, before, gone) && s !in gone
    ensures s in records <==> s in before
    ensures var gone' := if s in shutdown.stuck || s !in before then gone else gone + {s};
            && EndedRecords(Unmounted(records, s, shutdown.For(s)), before, gone', shutdown)
            && Ended(vfses0, if s in records && !shutdown.For(s).TimedOut? then vfses - VfsOf(records[s]) else vfses,
                     before, gone')
  {
    ShrinkStep(records, before, gone, shutdown, s);
    if s !in shutdown.stuck && s in before {
      EndOne(vfses0, vfses, before, gone, s);
    }
  }

  lemma AllTried(shutdown: Shutdown, before: map<string, Session>, volumeID: string, known: set<string>, ended: nat,
                 vfses0: multiset<string>, vfses: multiset<string>, records: map<string, Session>)
    requires var gone := EndedBy(shutdown, before, volumeID, known);
             EndedRecords(records, before, gone, shutdown) && Ended(vfses0, vfses, before, gone)
    requires ended == |CountedBy(shutdown, before, volumeID, known)|
    ensures vfses <= vfses0 && (ended == 0 ==> vfses == vfses0 && records == before)
  {
    EndingShrinks(vfses0, vfses, before, EndedBy(shutdown, before, volumeID, known));
    if ended == 0 {
      NoneCounted(shutdown, before, volumeID, known);
      NothingEnded(records, before, shutdown);
    }
  }

  // ---- said without the sets above ----

  /** A session of the volume that rclone lists, or one the caller knows. */
  ghost predicate Meant(shutdown: Shutdown, before: map<string, Session>, volumeID: string, known: set<string>,
                        s: string)
  {
    (shutdown.listed && s in before && before[s].volumeID == volumeID) || (s in known && s != "")
  }

  /** The VFSes under this name that go: those still alive of recorded sessions that
      are meant and whose unmount does not run out of time. */
  ghost function Going(shutdown: Shutdown, before: map<string, Session>, volumeID: string, known: set<string>,
                       name: string): set<string>
  {
    set s | s in before && Meant(shutdown, before, volumeID, known, s) && s !in shutdown.stuck
            && before[s].live && before[s].fsName == name
  }

  lemma EndedIsMeant(shutdown: Shutdown, before: map<string, Session>, volumeID: string, known: set<string>)
    ensures forall s :: s in EndedBy(shutdown, before, volumeID, known) <==>
              s in before && Meant(shutdown, before, volumeID, known, s) && s !in shutdown.stuck
    ensures forall s :: s in CountedBy(shutdown, before, volumeID, known) <==>
              (s in before || s in shutdown.stuck) && Meant(shutdown, before, volumeID, known, s)
  {
  }

  lemma VfsesThatGo(shutdown: Shutdown, before: map<string, Session>, volumeID: string, known: set<string>,
                    vfses0: multiset<string>, vfses: multiset<string>)
    requires Ended(vfses0, vfses, before, EndedBy(shutdown, before, volumeID, known))
    ensures forall n :: var k := |Going(shutdown, before, volumeID, known, n)|;
              vfses[n] == if vfses0[n] <= k then 0 else vfses0[n] - k
  {
    EndedIsMeant(shutdown, before, volumeID, known);
    forall n
      ensures Named(before, EndedBy(shutdown, before, volumeID, known), n) ==
              Going(shutdown, before, volumeID, known, n)
    {
    }
  }

  lemma RecordsThatGo(shutdown: Shutdown, before: map<string, Session>, volumeID: string, known: set<string>,
                      records: map<string, Session>)
    requires EndedRecords(records, before, EndedBy(shutdown, before, volumeID, known), shutdown)
    ensures records.Keys <= before.Keys
    ensures forall s :: s in before && Meant(shutdown, before, volumeID, known, s) && s !in shutdown.stuck ==>
              if s in shutdown.halved then s in records && records[s] == before[s].(live := false) else s !in records
    ensures forall s :: s in before && (!Meant(shutdown, before, volumeID, known, s) || s in shutdown.stuck) ==>
              s in records && records[s] == before[s]
  {
    EndedIsMeant(shutdown, before, volumeID, known);
  }

  lemma SessionsCounted(shutdown: Shutdown, before: map<string, Session>, volumeID: string, known: set<string>)
    ensures CountedBy(shutdown, before, volumeID, known) ==
            set s | s in before.Keys + shutdown.stuck && Meant(shutdown, before, volumeID, known, s)
  {
    EndedIsMeant(shutdown, before, volumeID, known);
  }

  /** The volume's own sessions that still have a VFS under this name. */
  ghost function OwnLive(records: map<string, Session>, volumeID: string, name: string): set<string> {
    set s | s in records && records[s].volumeID == volumeID && records[s].live && records[s].fsName == name
  }

  lemma OwnSessionsGo(shutdown: Shutdown, before: map<string, Session>, volumeID: string, name: string)
    requires shutdown.listed && OwnLive(before, volumeID, name) !! shutdown.stuck
    ensures Going(shutdown, before, volumeID, {}, name) == OwnLive(before, volumeID, name)
    ensures OwnLive(before, volumeID, name) != {} ==> CountedBy(shutdown, before, volumeID, {}) != {}
  {
    EndedIsMeant(shutdown, before, volumeID, {});
    if s :| s in OwnLive(before, volumeID, name) {
      assert s in CountedBy(shutdown, before, volumeID, {});
    }
  }

  /** rclone as the driver sees it: the VFSes it serves, by fs name, and the mount
      records through which one can still be shut down. A VFS whose FUSE died on
      its own keeps its registration and has no record. */
  class Rclone {
    var vfses: multiset<string>
    var records: map<string, Session>   // by session path

    constructor ()
      ensures vfses == multiset{} && records == map[]
    {
      vfses, records := multiset{}, map[];
    }

    /** vfs/list, which may fail to answer; module VfsListing counts its entries. */
    method List(answers: bool) returns (ok: bool, counts: multiset<string>)
      ensures ok == answers && (ok ==> counts == vfses)
    {
      ok := answers;
      counts := if answers then vfses else multiset{};
    }

    /** unmountSession: mount/unmount shuts the session's VFS down and drops its
        record. Any failure but "mount not found" counts as found. */
    method UnmountSession(s: string, outcome: Outcome) returns (found: bool)
      modifies this
      ensures found <==> s in old(records) || outcome.TimedOut?
      ensures records == Unmounted(old(records), s, outcome)
      ensures vfses ==
                if s in old(records) && !outcome.TimedOut? then old(vfses) - VfsOf(old(records)[s]) else old(vfses)
    {
      if outcome.TimedOut? {
        return true;
      }
      found := s in records;
      if found {
        vfses := vfses - VfsOf(records[s]);
        records := if outcome.Done? then records - {s} else records[s := records[s].(live := false)];
      }
    }

    /** ShutdownSessions: ends every recorded session of the volume, any of `known`
        that the list missed, and with each the VFS it had, as far as rclone
        answers. */
    method ShutdownSessions(volumeID: string, known: set<string>, shutdown: Shutdown) returns (ended: nat)
      modifies this
      ensures var gone := EndedBy(shutdown, old(records), volumeID, known);
              && EndedRecords(records, old(records), gone, shutdown)
              && Ended(old(vfses), vfses, old(records), gone)
      ensures ended == |CountedBy(shutdown, old(records), volumeID, known)|
      ensures vfses <= old(vfses) && (ended == 0 ==> vfses == old(vfses) && records == old(records))
      // each recorded session that is meant goes, or loses its VFS if its unmount is
      // half done, unless that runs out of time; every other one stays as it is
      ensures records.Keys <= old(records).Keys
      ensures forall s :: s in old(records) && Meant(shutdown, old(records), volumeID, known, s)
                          && s !in shutdown.stuck ==>
                if s in shutdown.halved then s in records && records[s] == old(records)[s].(live := false)
                else s !in records
      ensures forall s :: s in old(records)
                          && (!Meant(shutdown, old(records), volumeID, known, s) || s in shutdown.stuck) ==>
                s in records && records[s] == old(records)[s]
      // and with it the VFS it still had, under each name as many as there were such
      ensures forall n :: var k := |Going(shutdown, old(records), volumeID, known, n)|;
                vfses[n] == if old(vfses)[n] <= k then 0 else old(vfses)[n] - k
      // counted are the recorded ones that are meant, and those that ran out of time
      ensures ended == |set s | s in old(records).Keys + shutdown.stuck
                                && Meant(shutdown, old(records), volumeID, known, s)|
    {
      ghost var before, vfses0 := records, vfses;
      var sessions := Tried(shutdown, records, volumeID, known);
      ended := UnmountAll(sessions, shutdown);
      AllTried(shutdown, before, volumeID, known, ended, vfses0, vfses, records);
      RecordsThatGo(shutdown, before, volumeID, known, records);
      VfsesThatGo(shutdown, before, volumeID, known, vfses0, vfses);
      SessionsCounted(shutdown, before, volumeID, known);
    }

    /** Its loop. */
    method UnmountAll(sessions: set<string>, shutdown: Shutdown) returns (ended: nat)
      modifies this
      ensures var gone := sessions * old(records).Keys - shutdown.stuck;
              && EndedRecords(records, old(records), gone, shutdown)
              && Ended(old(vfses), vfses, old(records), gone)
      ensures ended == |sessions * (old(records).Keys + shutdown.stuck)|
    {
      ended := 0;
      ghost var before := records;
      EndNone(vfses, records);
      NothingEnded(records, records, shutdown);
      var todo := sessions;
      ghost var gone: set<string> := {};
      while todo != {}
        invariant todo <= sessions && Progress(sessions, before.Keys, shutdown.stuck, todo, gone, ended)
        invariant EndedRecords(records, before, gone, shutdown)
        invariant Ended(old(vfses), vfses, before, gone)
        decreases todo
      {
        var s :| s in todo;
        ProgressStep(sessions, before.Keys, shutdown.stuck, todo, gone, ended, s);
        OneTried(before, gone, shutdown, s, old(vfses), vfses, records);
        var found := UnmountSession(s, shutdown.For(s));
        gone := if s in shutdown.stuck || s !in before then gone else gone + {s};
        if found {
          ended := ended + 1;
        }
        todo := todo - {s};
      }
      ProgressEnd(sessions, before.Keys, shutdown.stuck, gone, ended);
    }
  }

  ghost predicate Always(answer: nat -> bool) { forall i :: answer(i) }

  /** Generations from..to (exclusive) of the volume all have a VFS. */
  ghost predicate AllTaken(vfses: multiset<string>, volumeID: string, from: nat, to: nat) {
    forall g: nat :: from <= g < to ==> vfses[VfsName(volumeID, g)] > 0
  }

  /** What the calls of ShutdownSessions for the volume have done to rclone so far. */
  ghost predicate SoFar(volumeID: string, vfses0: multiset<string>, records0: map<string, Session>,
                        vfses: multiset<string>, records: map<string, Session>)
  {
    && vfses <= vfses0 && SubRecords(records, records0) && OthersUntouched(records0, volumeID, vfses0, vfses)
    && (SessionsOf(records0, volumeID) == {} ==> vfses == vfses0 && records == records0)
  }

  lemma SoFarStep(volumeID: string, vfses0: multiset<string>, records0: map<string, Session>,
                  vfses: multiset<string>, records: map<string, Session>,
                  vfses': multiset<string>, records': map<string, Session>)
    requires SoFar(volumeID, vfses0, records0, vfses, records) && SoFar(volumeID, vfses, records, vfses', records')
    ensures SoFar(volumeID, vfses0, records0, vfses', records')
  {
    OthersStayUntouched(records0, records, volumeID, vfses0, vfses, vfses');
  }

  /** Every VFS under the name is of a session of the volume itself, which rclone lists
      and whose unmount returns in time. */
  ghost predicate HeldByItself(vfses: multiset<string>, records: map<string, Session>, volumeID: string, name: string,
                               shutdown: Shutdown)
  {
    && shutdown.listed && vfses[name] <= |OwnLive(records, volumeID, name)|
    && OwnLive(records, volumeID, name) !! shutdown.stuck
  }

  lemma EndingOwnSessions(shutdown: Shutdown, records: map<string, Session>, volumeID: string,
                          vfses0: multiset<string>, vfses: multiset<string>)
    requires Ended(vfses0, vfses, records, EndedBy(shutdown, records, volumeID, {}))
    ensures OthersUntouched(records, volumeID, vfses0, vfses)
    ensures !shutdown.listed || SessionsOf(records, volumeID) == {} ==> CountedBy(shutdown, records, volumeID, {}) == {}
  {
    EndingTouchesNoOther(records, volumeID, EndedBy(shutdown, records, volumeID, {}), vfses0, vfses);
  }

  lemma ItselfIsFreed(shutdown: Shutdown, records: map<string, Session>, volumeID: string, name: string,
                      vfses0: multiset<string>, vfses: multiset<string>)
    requires Ended(vfses0, vfses, records, EndedBy(shutdown, records, volumeID, {})) && vfses0[name] > 0
    ensures HeldByItself(vfses0, records, volumeID, name, shutdown) ==>
              vfses[name] == 0 && |CountedBy(shutdown, records, volumeID, {})| > 0
  {
    if HeldByItself(vfses0, records, volumeID, name, shutdown) {
      OwnSessionsGo(shutdown, records, volumeID, name);
      VfsesThatGo(shutdown, records, volumeID, {}, vfses0, vfses);
    }
  }

  datatype Turn = Take | Refuse | Bump

  class MountManager {
    const volumeID: string
    var generation: nat
    var vfsName: string
    var s3ConfigName: string
    var cryptConfigName: string

    ghost predicate Valid()
      reads this
    {
      && vfsName == cryptConfigName == VfsName(volumeID, generation)
      && s3ConfigName == S3ConfigName(volumeID, generation)
    }

    /** NewMountManager: resume on the name the map records for the volume. */
    constructor (volumeID: string, names: map<string, string>)
      ensures this.volumeID == volumeID && Valid()
      ensures volumeID !in names ==> generation == 0
      ensures forall g: nat :: g <= MAX_INT && volumeID in names && names[volumeID] == VfsName(volumeID, g) ==>
                generation == g
    {
      var g := GenerationOf(volumeID, if volumeID in names then names[volumeID] else "");
      this.volumeID := volumeID;
      generation := g;
      vfsName, s3ConfigName, cryptConfigName := VfsName(volumeID, g), S3ConfigName(volumeID, g), VfsName(volumeID, g);
      new;
      forall h: nat | h <= MAX_INT && volumeID in names && names[volumeID] == VfsName(volumeID, h)
        ensures generation == h
      {
        GenerationRoundTrip(volumeID, h);
      }
    }

    method BumpGeneration()
      requires Valid()
      modifies this
      ensures Valid() && generation == old(generation) + 1
      ensures vfsName == volumeID + ".g" + Decimal(generation) && cryptConfigName == vfsName
      ensures s3ConfigName == volumeID + ".g" + Decimal(generation) + "-s3"
    {
      generation := generation + 1;
      vfsName := VfsName(volumeID, generation);
      s3ConfigName := S3ConfigName(volumeID, generation);
      cryptConfigName := vfsName;
    }

    /** The name is taken: end the volume's sessions, if rclone still has any, and
        look again. */
    method EndOldSessions(r: Rclone, answers: bool, shutdown: Shutdown) returns (freed: bool)
      requires r.vfses[cryptConfigName] > 0
      modifies r
      ensures SubRecords(r.records, old(r.records)) && r.vfses <= old(r.vfses)
      ensures Ended(old(r.vfses), r.vfses, old(r.records), EndedBy(shutdown, old(r.records), volumeID, {}))
      ensures !shutdown.listed || SessionsOf(old(r.records), volumeID) == {} ==>
                !freed && r.vfses == old(r.vfses) && r.records == old(r.records)
      ensures OthersUntouched(old(r.records), volumeID, old(r.vfses), r.vfses)
      ensures if freed then answers ==> r.vfses[cryptConfigName] == 0 else r.vfses[cryptConfigName] > 0
      // a name held only by sessions of its own that can be ended is freed
      ensures HeldByItself(old(r.vfses), old(r.records), volumeID, cryptConfigName, shutdown) && answers ==> freed
    {
      var ended := r.ShutdownSessions(volumeID, {}, shutdown);
      EndingOwnSessions(shutdown, old(r.records), volumeID, old(r.vfses), r.vfses);
      ItselfIsFreed(shutdown, old(r.records), volumeID, cryptConfigName, old(r.vfses), r.vfses);
      if ended > 0 {
        var known, counts := r.List(answers);
        return !known || counts[cryptConfigName] == 0;
      }
      return false;
    }

    /** One turn of the loop below: look, end the volume's own sessions if the name is
        taken, look again. */
    method OneTurn(r: Rclone, bumps: nat, first: bool, second: bool, shutdown: Shutdown) returns (turn: Turn)
      modifies r
      ensures SoFar(volumeID, old(r.vfses), old(r.records), r.vfses, r.records)
      ensures !first ==>
                r.vfses == old(r.vfses) && r.records == old(r.records) && turn == if bumps > 0 then Take else Bump
      ensures first && old(r.vfses[cryptConfigName]) == 0 ==>
                r.vfses == old(r.vfses) && r.records == old(r.records) && turn == Take
      ensures first && second && turn.Take? ==> r.vfses[cryptConfigName] == 0
      ensures first && second && HeldByItself(old(r.vfses), old(r.records), volumeID, cryptConfigName, shutdown) ==>
                turn.Take?
      ensures turn.Refuse? ==> bumps >= MAX_VFS_GENERATIONS && r.vfses[cryptConfigName] > 0
      ensures turn.Bump? ==> (!first && bumps == 0) || (bumps < MAX_VFS_GENERATIONS && r.vfses[cryptConfigName] > 0)
    {
      var known, counts := r.List(first);
      if known && counts[cryptConfigName] == 0 {
        return Take;
      }
      if !known {
        return if bumps > 0 then Take else Bump; // still cannot verify: mounts anyway
      }
      var freed := EndOldSessions(r, second, shutdown);
      if freed {
        return Take;
      }
      return if bumps >= MAX_VFS_GENERATIONS then Refuse else Bump;
    }

    /** Settles the generation this mount will use, or refuses. `answer` gives
        the vfs/list calls their outcomes, answer(0) the first; `shutdown` says how
        the attempts to end old sessions go. */
    method EnsureExclusiveVFSName(r: Rclone, answer: nat -> bool, shutdown: nat -> Shutdown) returns (ok: bool)
      requires Valid()
      modifies this, r
      ensures Valid() && old(generation) <= generation <= old(generation) + 16
      // never mounts under a name it could see is taken
      ensures Always(answer) && ok ==> r.vfses[cryptConfigName] == 0
      ensures !ok ==> generation == old(generation) + 16 && r.vfses[cryptConfigName] > 0
      // no answer: a fresh generation once, and then blind, with nothing shut down
      ensures !answer(0) && !answer(1) ==>
                ok && generation == old(generation) + 1 && r.vfses == old(r.vfses) && r.records == old(r.records)
      // a free name is kept, with nothing shut down
      ensures answer(0) && old(r.vfses[cryptConfigName]) == 0 ==>
                ok && generation == old(generation) && r.vfses == old(r.vfses) && r.records == old(r.records)
      // a name held only by sessions of its own that can be ended is freed and kept
      ensures (&& answer(0) && answer(1)
               && old(HeldByItself(r.vfses, r.records, volumeID, cryptConfigName, shutdown(0)))) ==>
                ok && generation == old(generation) && r.vfses[cryptConfigName] == 0
      // only this volume's VFSes are touched
      ensures r.vfses <= old(r.vfses)
      ensures OthersUntouched(old(r.records), volumeID, old(r.vfses), r.vfses)
      // with nothing to shut down: the first free generation of seventeen, if any
      ensures Always(answer) && SessionsOf(old(r.records), volumeID) == {} ==>
                && r.vfses == old(r.vfses)
                && AllTaken(r.vfses, volumeID, old(generation), generation)
                && (ok ==> r.vfses[VfsName(volumeID, generation)] == 0)
                && (!ok ==> AllTaken(r.vfses, volumeID, old(generation), old(generation) + 17))
    {
      var bumps, calls := 0, 0;
      while true
        invariant Valid() && bumps <= MAX_VFS_GENERATIONS && generation == old(generation) + bumps
        invariant bumps == 0 ==> calls == 0 && r.vfses == old(r.vfses) && r.records == old(r.records)
        invariant !answer(0) && bumps == 1 ==> calls == 1 && r.vfses == old(r.vfses) && r.records == old(r.records)
        invariant !answer(0) && !answer(1) ==> bumps <= 1
        invariant answer(0) && old(r.vfses[cryptConfigName]) == 0 ==> bumps == 0
        invariant (&& answer(0) && answer(1)
                   && old(HeldByItself(r.vfses, r.records, volumeID, cryptConfigName, shutdown(0)))) ==> bumps == 0
        invariant SoFar(volumeID, old(r.vfses), old(r.records), r.vfses, r.records)
        invariant Always(answer) && SessionsOf(old(r.records), volumeID) == {} ==>
                    AllTaken(r.vfses, volumeID, old(generation), generation)
        decreases MAX_VFS_GENERATIONS - bumps
      {
        ghost var records, vfses := r.records, r.vfses;
        var turn := OneTurn(r, bumps, answer(calls), answer(calls + 1), shutdown(calls));
        SoFarStep(volumeID, old(r.vfses), old(r.records), vfses, records, r.vfses, r.records);
        if turn.Take? {
          return true;
        }
        if turn.Refuse? {
          return false;
        }
        calls := if answer(calls) then calls + 2 else calls + 1;
        BumpGeneration();
        bumps := bumps + 1;
      }
    }
  }

  // ---- runs: how many VFSes a name can get ----

  /** A mount that has settled its name and whose mount/mount call may still
      register it. A call that outlives its two-minute budget keeps its claim: the
      driver gives up, rclone does not. */
  datatype Claim = Claim(volumeID: string, generation: nat) {
    function Name(): string { VfsName(volumeID, generation) }
  }

  datatype Registry = Registry(vfses: multiset<string>, claims: map<nat, Claim>)

  datatype Event =
    | Settle(id: nat, claim: Claim)   // EnsureExclusiveVFSName returned; mount/mount is on its way
    | Register(id: nat)               // mount/mount, in time or late, registers the VFS
    | Withdraw(id: nat)               // it failed instead
    | Gone(name: string)              // some VFS is shut down

  ghost predicate Possible(r: Registry, e: Event) {
    match e
    case Settle(id, c) => id !in r.claims && PlainVolume(c.volumeID) && c.generation <= MAX_INT
    case Register(id) => id in r.claims
    case Withdraw(id) => id in r.claims
    case Gone(name) => name in r.vfses
  }

  function Apply(r: Registry, e: Event): Registry
    requires e.Register? ==> e.id in r.claims
  {
    match e
    case Settle(id, c) => r.(claims := r.claims[id := c])
    case Register(id) => Registry(r.vfses + multiset{r.claims[id].Name()}, r.claims - {id})
    case Withdraw(id) => r.(claims := r.claims - {id})
    case Gone(name) => r.(vfses := r.vfses - multiset{name})
  }

  /** vfs/list answered that the name is free, and no earlier mount of the same
      volume is still in rclone's hands. */
  predicate Careful(r: Registry, e: Event) {
    e.Settle? ==> r.vfses[e.claim.Name()] == 0
                  && forall i :: i in r.claims ==> r.claims[i].volumeID != e.claim.volumeID
  }

  /** The part of that the loop itself establishes. */
  predicate SeenFree(r: Registry, e: Event) {
    e.Settle? ==> r.vfses[e.claim.Name()] == 0
  }

  ghost predicate Unique(r: Registry) {
    forall n :: r.vfses[n] <= 1
  }

  ghost predicate Inv(r: Registry) {
    && Unique(r)
    && (forall i :: i in r.claims ==> PlainVolume(r.claims[i].volumeID) && r.claims[i].generation <= MAX_INT
                                      && r.vfses[r.claims[i].Name()] == 0)
    && (forall i, j :: i in r.claims && j in r.claims && i != j ==> r.claims[i].Name() != r.claims[j].Name())
  }

  ghost predicate CarefulRun(r: Registry, events: seq<Event>, r': Registry)
    decreases |events|
  {
    if events == [] then r == r'
    else Possible(r, events[0]) && Careful(r, events[0]) && CarefulRun(Apply(r, events[0]), events[1..], r')
  }

  lemma CarefulStep(r: Registry, e: Event)
    requires Inv(r) && Possible(r, e) && Careful(r, e)
    ensures Inv(Apply(r, e))
  {
    if e.Settle? {
      forall i | i in r.claims
        ensures r.claims[i].Name() != e.claim.Name()
      {
        if r.claims[i].Name() == e.claim.Name() {
          NamesInjective(r.claims[i].volumeID, r.claims[i].generation, e.claim.volumeID, e.claim.generation);
        }
      }
    }
  }

  lemma {:induction false} CarefulRunKeepsInv(r: Registry, events: seq<Event>, r': Registry)
    requires Inv(r) && CarefulRun(r, events, r')
    ensures Inv(r')
    decreases |events|
  {
    if events != [] {
      CarefulStep(r, events[0]);
      CarefulRunKeepsInv(Apply(r, events[0]), events[1..], r');
    }
  }

  /** Across all volumes, leaks, late registrations and remounts: while vfs/list
      answers and no volume's mount overlaps an unfinished one of its own, no fs
      name ever has two VFSes. */
  lemma AtMostOneVfsPerName(events: seq<Event>, r: Registry)
    requires CarefulRun(Registry(multiset{}, map[]), events, r)
    ensures Unique(r)
  {
    CarefulRunKeepsInv(Registry(multiset{}, map[]), events, r);
  }

  /** What one call of EnsureExclusiveVFSName does to such a run: VFSes may have
      gone, and if vfs/list answered and no mount of the volume is outstanding, the
      settled name is a careful claim that keeps the registry right. */
  method SettleForMount(m: MountManager, r: Rclone, answer: nat -> bool, shutdown: nat -> Shutdown,
                        ghost claims: map<nat, Claim>, ghost id: nat)
    returns (ok: bool)
    requires m.Valid() && id !in claims && PlainVolume(m.volumeID) && m.generation + MAX_VFS_GENERATIONS <= MAX_INT
    requires Inv(Registry(r.vfses, claims)) && forall i :: i in claims ==> claims[i].volumeID != m.volumeID
    modifies m, r
    ensures var settled := Registry(r.vfses, claims);
            var e := Settle(id, Claim(m.volumeID, m.generation));
            && Inv(settled)
            && (ok && Always(answer) ==>
                Possible(settled, e) && Careful(settled, e) && Inv(Apply(settled, e)))
  {
    ghost var before := r.vfses;
    ok := m.EnsureExclusiveVFSName(r, answer, shutdown);
    ghost var settled := Registry(r.vfses, claims);
    assert forall n :: r.vfses[n] <= before[n];
    if ok && Always(answer) {
      CarefulStep(settled, Settle(id, Claim(m.volumeID, m.generation)));
    }
  }

  /** The other part is not the loop's to see. A mount call that outlives its
      budget registers late: settle, settle again while the first is outstanding,
      and both register. */
  lemma LateRegistrationGivesTwo(c: Claim)
    requires PlainVolume(c.volumeID) && c.generation <= MAX_INT
    ensures var first := Registry(multiset{}, map[]);
            var second := Apply(first, Settle(0, c));
            var third := Apply(second, Settle(1, c));
            && Possible(first, Settle(0, c)) && SeenFree(first, Settle(0, c))
            && Possible(second, Settle(1, c)) && SeenFree(second, Settle(1, c))
            && Possible(third, Register(0)) && Possible(Apply(third, Register(0)), Register(1))
            && Apply(Apply(third, Register(0)), Register(1)).vfses[c.Name()] == 2
  {
  }

  ghost predicate StaysUnique(r: Registry) {
    forall events, r' :: CarefulRun(r, events, r') ==> Unique(r')
  }

  lemma {:induction false} LateRegistrations(r: Registry, i: nat, j: nat)
    requires i in r.claims && j in r.claims && i != j
    ensures CarefulRun(r, [Register(i), Register(j)], Apply(Apply(r, Register(i)), Register(j)))
  {
    var events := [Register(i), Register(j)];
    assert events[1..] == [Register(j)] && events[1..][1..] == [];
    assert CarefulRun(Apply(r, Register(i)), [Register(j)], Apply(Apply(r, Register(i)), Register(j)));
  }

  /** Settling a name, blindly or after a timed-out mount, keeps every later state
      unique exactly when the name is free and no outstanding mount has settled
      it too. The loop above sees only the first half of that condition. */
  lemma SettlingIsSafeExactly(r: Registry, id: nat, c: Claim)
    requires Inv(r) && Possible(r, Settle(id, c))
    ensures StaysUnique(Apply(r, Settle(id, c))) <==>
            r.vfses[c.Name()] == 0 && forall i :: i in r.claims ==> r.claims[i].Name() != c.Name()
  {
    var r' := Apply(r, Settle(id, c));
    if r.vfses[c.Name()] == 0 && forall i :: i in r.claims ==> r.claims[i].Name() != c.Name() {
      forall events, r'' | CarefulRun(r', events, r'')
        ensures Unique(r'')
      {
        CarefulRunKeepsInv(r', events, r'');
      }
    } else if r.vfses[c.Name()] != 0 {
      var r'' := Apply(r', Register(id));
      assert [Register(id)][1..] == [];
      assert CarefulRun(r', [Register(id)], r'');
      assert r''.vfses[c.Name()] == 2;
    } else {
      var i :| i in r.claims && r.claims[i].Name() == c.Name();
      LateRegistrations(r', i, id);
      assert Apply(Apply(r', Register(i)), Register(id)).vfses[c.Name()] == 2;
    }
  }
}
