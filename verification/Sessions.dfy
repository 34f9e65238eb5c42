/** Private session mountpoints (pkg/rclone/session.go). rclone may end a session at
    any moment, and names what it unmounts by path only. The driver therefore gives
    every session a directory of its own and binds it to the staging path. */
module Sessions {
  import opened Basics
  import opened VfsNames
  import DirtyScan

  const SESSION_BASE := "/var/lib/lukscrypt-cache/sessions/"

  /** Prefix of every session path of the volume. */
  function VolumePrefix(volumeID: string): string { SESSION_BASE + volumeID + "/" }

  function SessionPath(volumeID: string, vfsName: string, stamp: nat): string {
    VolumePrefix(volumeID) + vfsName + "@" + Decimal(stamp)
  }

  // ---- the paths tell volumes and sessions apart ----

  lemma PrefixNamesTheVolume(v: string, v': string, rest: string)
    requires Component(v) && Component(v')
    ensures VolumePrefix(v) <= VolumePrefix(v') + rest <==> v == v'
  {
    var p, s, b := VolumePrefix(v), VolumePrefix(v') + rest, |SESSION_BASE|;
    if p <= s {
      assert forall i :: 0 <= i < |p| ==> p[i] == s[i];
      assert forall i :: b <= i < b + |v| ==> p[i] == v[i - b] && v[i - b] in v;
      assert forall i :: b <= i < b + |v'| ==> s[i] == v'[i - b] && v'[i - b] in v';
      assert p[b + |v|] == '/' && s[b + |v'|] == '/';
      assert |v| == |v'|;
      assert v == p[b..b + |v|] && v' == s[b..b + |v|];
    }
  }

  lemma DigitsFollowTheLastAt(a: string, d: string, k: nat)
    requires AllDigits(d) && |a| < k < |a| + 1 + |d|
    ensures (a + "@" + d)[k] != '@'
  {
    assert (a + "@" + d)[k] == d[k - |a| - 1] && d[k - |a| - 1] in d;
  }

  lemma StampIsUnique(a: string, t: nat, a': string, t': nat)
    requires a + "@" + Decimal(t) == a' + "@" + Decimal(t')
    ensures a == a' && t == t'
  {
    var d, d' := Decimal(t), Decimal(t');
    var s := a + "@" + d;
    DecimalRoundTrip(t);
    DecimalRoundTrip(t');
    assert s[|a|] == '@' && (a' + "@" + d')[|a'|] == '@';
    if |a| < |a'| {
      DigitsFollowTheLastAt(a, d, |a'|);
    } else if |a'| < |a| {
      DigitsFollowTheLastAt(a', d', |a|);
    }
    assert a == s[..|a|] && d == s[|a| + 1..];
    assert a' == s[..|a'|] && d' == s[|a'| + 1..];
  }

  /** Session paths are equal only for the same volume, VFS name and stamp. */
  lemma SessionPathInjective(v: string, n: string, t: nat, v': string, n': string, t': nat)
    requires Component(v) && Component(v') && SessionPath(v, n, t) == SessionPath(v', n', t')
    ensures v == v' && n == n' && t == t'
  {
    var p := SessionPath(v, n, t);
    assert p == VolumePrefix(v) + (n + "@" + Decimal(t));
    assert p == VolumePrefix(v') + (n' + "@" + Decimal(t'));
    PrefixNamesTheVolume(v, v', n' + "@" + Decimal(t'));
    assert n + "@" + Decimal(t) == p[|VolumePrefix(v)|..] == n' + "@" + Decimal(t');
    StampIsUnique(n, t, n', t');
  }

  // ---- newSessionDir and sessionsOf ----

  ghost function TakenFrom(dirs: set<string>, v: string, n: string, from: nat): set<string> {
    set p | p in dirs && exists t: nat :: from <= t && p == SessionPath(v, n, t)
  }

  /** clock(i) is the i-th reading. It never goes back, and does not stand still for
      ever: reading tick(i) is past reading i. */
  ghost predicate Ticks(clock: nat -> nat, tick: nat -> nat) {
    && (forall i: nat, j: nat :: i <= j ==> clock(i) <= clock(j))
    && (forall i: nat {:trigger tick(i)} :: i < tick(i) && clock(i) < clock(tick(i)))
  }

  /** newSessionDir: stamps the path with the clock until mkdir finds it free. */
  method NewSessionDir(dirs: set<string>, volumeID: string, vfsName: string, clock: nat -> nat,
                       ghost tick: nat -> nat)
    returns (dir: string, stamp: nat)
    requires Component(volumeID)
    requires Ticks(clock, tick)
    ensures dir == SessionPath(volumeID, vfsName, stamp) && dir !in dirs
    ensures dir == "/var/lib/lukscrypt-cache/sessions/" + volumeID + "/" + vfsName + "@" + Decimal(stamp)
    // and no path stamped before this call began, whether or not it still exists
    ensures clock(0) <= stamp
    ensures forall n: string, t: nat :: t < clock(0) ==> dir != SessionPath(volumeID, n, t)
  {
    var i: nat := 0;
    stamp := clock(0);
    dir := SessionPath(volumeID, vfsName, stamp);
    ghost var later := tick(0);
    while dir in dirs
      invariant clock(0) <= clock(i) == stamp && dir == SessionPath(volumeID, vfsName, stamp)
      invariant i < later && clock(i) < clock(later)
      decreases TakenFrom(dirs, volumeID, vfsName, stamp), later - i
    {
      ghost var before := stamp;
      i := i + 1;
      stamp := clock(i);
      dir := SessionPath(volumeID, vfsName, stamp);
      if before < stamp {
        FewerTaken(dirs, volumeID, vfsName, before, stamp);
        later := tick(i);
      }
    }
    forall n: string, t: nat | t < clock(0)
      ensures dir != SessionPath(volumeID, n, t)
    {
      if dir == SessionPath(volumeID, n, t) {
        SessionPathInjective(volumeID, vfsName, stamp, volumeID, n, t);
      }
    }
  }

  lemma FewerTaken(dirs: set<string>, v: string, n: string, t: nat, t': nat)
    requires Component(v) && t < t' && SessionPath(v, n, t) in dirs
    ensures TakenFrom(dirs, v, n, t') < TakenFrom(dirs, v, n, t)
  {
    var taken := SessionPath(v, n, t);
    assert taken in TakenFrom(dirs, v, n, t);
    forall u: nat | t' <= u
      ensures SessionPath(v, n, u) != taken
    {
      if SessionPath(v, n, u) == taken {
        SessionPathInjective(v, n, u, v, n, t);
      }
    }
    assert taken !in TakenFrom(dirs, v, n, t');
  }

  /** What the prefix test picks, in the order given. */
  function Picked(volumeID: string, mountPoints: seq<string>): seq<string> {
    if mountPoints == [] then []
    else
      var n := |mountPoints| - 1;
      Picked(volumeID, mountPoints[..n]) + if VolumePrefix(volumeID) <= mountPoints[n] then [mountPoints[n]] else []
  }

  lemma {:induction false} PickedExactly(volumeID: string, mountPoints: seq<string>, p: string)
    ensures multiset(Picked(volumeID, mountPoints))[p] ==
            if VolumePrefix(volumeID) <= p then multiset(mountPoints)[p] else 0
  {
    if mountPoints != [] {
      var n := |mountPoints| - 1;
      PickedExactly(volumeID, mountPoints[..n], p);
      assert mountPoints == mountPoints[..n] + [mountPoints[n]];
    }
  }

  method SessionsOf(volumeID: string, mountPoints: seq<string>) returns (out: seq<string>)
    ensures DirtyScan.Sorted(out)
    ensures forall p :: multiset(out)[p] == if VolumePrefix(volumeID) <= p then multiset(mountPoints)[p] else 0
  {
    var found: seq<string> := [];
    for i := 0 to |mountPoints|
      invariant found == Picked(volumeID, mountPoints[..i])
    {
      assert mountPoints[..i + 1][..i] == mountPoints[..i];
      if VolumePrefix(volumeID) <= mountPoints[i] {
        found := found + [mountPoints[i]];
      }
    }
    assert mountPoints[..|mountPoints|] == mountPoints;
    forall p
      ensures multiset(found)[p] == if VolumePrefix(volumeID) <= p then multiset(mountPoints)[p] else 0
    {
      PickedExactly(volumeID, mountPoints, p);
    }
    out := DirtyScan.SortStrings(found);
  }

  // ---- runs ----

  /** A place a filesystem can be mounted at: a session directory, or anywhere
      outside the session tree (staging and drain paths). */
  datatype Place = SessionDir(volumeID: string, vfsName: string, stamp: nat) | Outside(path: string)

  function Render(p: Place): string {
    match p
    case SessionDir(v, n, t) => SessionPath(v, n, t)
    case Outside(path) => path
  }

  /** Comparing places is comparing paths, and the prefix test of sessionsOf is
      asking for the volume. */
  lemma PlacesArePaths(p: Place, p': Place, v: string)
    requires p.SessionDir? && p'.SessionDir? && Component(p.volumeID) && Component(p'.volumeID) && Component(v)
    ensures Render(p) == Render(p') <==> p == p'
    ensures VolumePrefix(v) <= Render(p) <==> p.volumeID == v
  {
    if Render(p) == Render(p') {
      SessionPathInjective(p.volumeID, p.vfsName, p.stamp, p'.volumeID, p'.vfsName, p'.stamp);
    }
    assert Render(p) == VolumePrefix(p.volumeID) + (p.vfsName + "@" + Decimal(p.stamp));
    PrefixNamesTheVolume(v, p.volumeID, p.vfsName + "@" + Decimal(p.stamp));
  }

  /** Every session ever started, by number, with its mountpoint; the kernel's
      mounts, as the session serving each and topmost last; rclone's records by
      mountpoint; and the sessions some teardown, shutdown, sweep or crash was
      aimed at. */
  datatype World = World(
    places: map<nat, Place>,
    stacks: map<Place, seq<nat>>,
    records: map<Place, nat>,
    ended: set<nat>)

  const EMPTY := World(map[], map[], map[], {})

  function Stack(w: World, q: Place): seq<nat> {
    if q in w.stacks then w.stacks[q] else []
  }

  datatype Event =
    | Start(id: nat, place: Place)
    | Bind(id: nat, target: Place)         // expose: what the session path shows, at the staging path
    | Unbind(target: Place)                // unbindStaging
    | Teardown(id: nat)                    // rclone's own, at any time after the start
    | Shutdown(volumeID: string, known: set<Place>)
    | Sweep(volumeID: string)
    | Crash

  function Popped(stack: seq<nat>): seq<nat> {
    if stack == [] then [] else stack[..|stack| - 1]
  }

  /** Unmounts the topmost mount at each of the places. */
  function PopAt(stacks: map<Place, seq<nat>>, at: set<Place>): map<Place, seq<nat>> {
    map q | q in stacks :: if q in at then Popped(stacks[q]) else stacks[q]
  }

  predicate InVolume(q: Place, volumeID: string) {
    q.SessionDir? && q.volumeID == volumeID
  }

  /** What ShutdownSessions unmounts: the volume's recorded sessions and `known`. */
  function ShutPlaces(w: World, volumeID: string, known: set<Place>): set<Place> {
    (set q | q in w.records && InVolume(q, volumeID)) + known
  }

  /** What SweepDeadSessions detaches: session directories without a record. */
  function SweptPlaces(w: World, volumeID: string): set<Place> {
    set id | id in w.places && InVolume(w.places[id], volumeID) && w.places[id] !in w.records :: w.places[id]
  }

  function SessionsAt(w: World, at: set<Place>): set<nat> {
    set id | id in w.places && w.places[id] in at
  }

  predicate Possible(w: World, e: Event) {
    match e
    case Start(id, _) => id !in w.places
    case Bind(id, target) => id in w.places && Stack(w, w.places[id]) != []
    case Teardown(id) => id in w.places
    case Shutdown(volumeID, known) => forall k :: k in known ==> InVolume(k, volumeID)
    case _ => true
  }

  function Unmounted(w: World, at: set<Place>): World {
    w.(stacks := PopAt(w.stacks, at), records := w.records - at, ended := w.ended + SessionsAt(w, at))
  }

  function Apply(w: World, e: Event): World
    requires Possible(w, e)
  {
    match e
    case Start(id, p) => w.(places := w.places[id := p], stacks := w.stacks[p := Stack(w, p) + [id]],
                            records := w.records[p := id])
    case Bind(id, target) =>
      var s := Stack(w, w.places[id]);
      w.(stacks := w.stacks[target := Stack(w, target) + [s[|s| - 1]]])
    case Unbind(target) => w.(stacks := PopAt(w.stacks, {target}))
    case Teardown(id) => Unmounted(w, {w.places[id]}).(ended := w.ended + {id})
    case Shutdown(v, known) => Unmounted(w, ShutPlaces(w, v, known))
    case Sweep(v) => Unmounted(w, SweptPlaces(w, v))
    case Crash => w.(records := map[], ended := w.ended + w.places.Keys)
  }

  /** The session's mount is alone at its place and rclone has its record. */
  ghost predicate Intact(w: World, id: nat)
    requires id in w.places
  {
    Stack(w, w.places[id]) == [id] && w.places[id] in w.records && w.records[w.places[id]] == id
  }

  /** Private mountpoints: each session starts in a directory no session has had
      (NewSessionDir), and binds go outside the session tree. */
  predicate Private(w: World, e: Event) {
    match e
    case Start(_, p) => p.SessionDir? && forall id :: id in w.places ==> w.places[id] != p
    case Bind(_, target) => target.Outside?
    case Unbind(target) => target.Outside?
    case _ => true
  }

  /** And newSessionDir starts sessions so, given that each earlier session of the
      volume was stamped before this call or still has its directory. */
  method StartSession(w: World, id: nat, dirs: set<string>, volumeID: string, vfsName: string, clock: nat -> nat,
                      ghost tick: nat -> nat)
    returns (place: Place)
    requires id !in w.places && Component(volumeID)
    requires Ticks(clock, tick)
    requires forall a :: a in w.places && InVolume(w.places[a], volumeID) ==>
               w.places[a].stamp < clock(0) || Render(w.places[a]) in dirs
    ensures InVolume(place, volumeID) && Render(place) !in dirs
    ensures Possible(w, Start(id, place)) && Private(w, Start(id, place))
  {
    var dir, stamp := NewSessionDir(dirs, volumeID, vfsName, clock, tick);
    place := SessionDir(volumeID, vfsName, stamp);
  }

  /** What is mounted at q is one mount, of the session that was started there. */
  ghost predicate OnlyItsOwn(w: World, q: Place)
    requires Stack(w, q) != []
  {
    var id := Stack(w, q)[0];
    Stack(w, q) == [id] && id in w.places && w.places[id] == q
  }

  ghost predicate Inv(w: World) {
    && (forall id :: id in w.places ==> w.places[id].SessionDir?)
    && (forall a, b :: a in w.places && b in w.places && w.places[a] == w.places[b] ==> a == b)
    && (forall q :: q in w.records ==> w.records[q] in w.places && w.places[w.records[q]] == q)
    && (forall q: Place :: q.SessionDir? && Stack(w, q) != [] ==> OnlyItsOwn(w, q))
    && (forall id :: id in w.places && id !in w.ended ==> Intact(w, id))
  }

  lemma UnmountKeepsInv(w: World, at: set<Place>)
    requires Inv(w)
    ensures Inv(Unmounted(w, at))
  {
    var w' := Unmounted(w, at);
    forall q: Place | q.SessionDir? && Stack(w', q) != []
      ensures OnlyItsOwn(w', q)
    {
      assert OnlyItsOwn(w, q);
      assert q !in at;
    }
    forall id | id in w'.places && id !in w'.ended
      ensures Intact(w', id)
    {
      assert Intact(w, id) && w.places[id] !in at;
    }
  }

  lemma StartKeepsInv(w: World, e: Event)
    requires Inv(w) && Possible(w, e) && Private(w, e) && e.Start?
    ensures Inv(Apply(w, e))
  {
    var w' := Apply(w, e);
    assert Stack(w, e.place) != [] ==> OnlyItsOwn(w, e.place);
    assert Stack(w', e.place) == [e.id];
    forall q: Place | q.SessionDir? && Stack(w', q) != []
      ensures OnlyItsOwn(w', q)
    {
      if q != e.place { assert OnlyItsOwn(w, q); }
    }
    forall id | id in w'.places && id !in w'.ended
      ensures Intact(w', id)
    {
      if id != e.id { assert Intact(w, id) && w.places[id] != e.place; }
    }
  }

  lemma BindKeepsInv(w: World, e: Event)
    requires Inv(w) && Possible(w, e) && Private(w, e) && (e.Bind? || e.Unbind?)
    ensures Inv(Apply(w, e))
  {
    var w' := Apply(w, e);
    assert forall q: Place :: q.SessionDir? ==> Stack(w', q) == Stack(w, q);
  }

  lemma PrivateStep(w: World, e: Event)
    requires Inv(w) && Possible(w, e) && Private(w, e)
    ensures Inv(Apply(w, e))
  {
    match e {
      case Start(_, _) => StartKeepsInv(w, e);
      case Bind(_, _) => BindKeepsInv(w, e);
      case Unbind(_) => BindKeepsInv(w, e);
      case Teardown(id) =>
        UnmountKeepsInv(w, {w.places[id]});
        assert SessionsAt(w, {w.places[id]}) == {id};
      case Shutdown(v, known) => UnmountKeepsInv(w, ShutPlaces(w, v, known));
      case Sweep(v) => UnmountKeepsInv(w, SweptPlaces(w, v));
      case Crash =>
    }
  }

  ghost predicate PrivateRun(w: World, events: seq<Event>, w': World)
    decreases |events|
  {
    if events == [] then w == w'
    else Possible(w, events[0]) && Private(w, events[0]) && PrivateRun(Apply(w, events[0]), events[1..], w')
  }

  lemma {:induction false} PrivateRunKeepsInv(w: World, events: seq<Event>, w': World)
    requires Inv(w) && PrivateRun(w, events, w')
    ensures Inv(w')
    decreases |events|
  {
    if events != [] {
      PrivateStep(w, events[0]);
      PrivateRunKeepsInv(Apply(w, events[0]), events[1..], w');
    }
  }

  /** In every private run, whatever teardowns fire when: a session that nothing
      was aimed at still has its mount and its record. */
  lemma SessionsAreIsolated(events: seq<Event>, w: World, id: nat)
    requires PrivateRun(EMPTY, events, w) && id in w.places && id !in w.ended
    ensures Intact(w, id)
  {
    PrivateRunKeepsInv(EMPTY, events, w);
  }

  predicate AimedAt(w: World, e: Event, id: nat) {
    && id in w.places
    && match e
       case Teardown(a) => id == a
       case Shutdown(v, _) => InVolume(w.places[id], v)
       case Sweep(v) => InVolume(w.places[id], v) && w.places[id] !in w.records
       case _ => false
  }

  /** And what each of them is aimed at: a teardown at its own session, a shutdown
      or sweep at sessions of its volume (the sweep at none with a record); none of
      them changes what is bound outside the session tree. */
  lemma AimedOnlyAtItsOwn(events: seq<Event>, w: World, e: Event)
    requires PrivateRun(EMPTY, events, w) && Possible(w, e) && (e.Teardown? || e.Shutdown? || e.Sweep?)
    ensures forall id :: id in Apply(w, e).ended && id !in w.ended ==> AimedAt(w, e, id)
    ensures forall q: Place :: q.Outside? ==> Stack(Apply(w, e), q) == Stack(w, q)
  {
    PrivateRunKeepsInv(EMPTY, events, w);
  }

  ghost predicate Touches(e: Event, target: Place) {
    (e.Bind? || e.Unbind?) && e.target == target
  }

  /** A successor's staging bind stays through everything but a bind or unbind at
      that very staging path. */
  lemma {:induction false} StagingBindSurvives(w: World, events: seq<Event>, w': World, target: Place)
    requires Inv(w) && PrivateRun(w, events, w') && target.Outside?
    requires forall i :: 0 <= i < |events| ==> !Touches(events[i], target)
    ensures Stack(w', target) == Stack(w, target)
    decreases |events|
  {
    if events != [] {
      PrivateStep(w, events[0]);
      assert !Touches(events[0], target);
      assert Stack(Apply(w, events[0]), target) == Stack(w, target);
      StagingBindSurvives(Apply(w, events[0]), events[1..], w', target);
    }
  }

  /** With arbitrary mountpoints: the teardown of one session leaves another's
      mount and record in place exactly when their mountpoints differ. */
  lemma TeardownIsHarmlessExactly(w: World, a: nat, b: nat)
    requires a in w.places && b in w.places && Stack(w, w.places[b]) != []
    requires w.places[b] in w.records && w.records[w.places[b]] == b
    ensures var w' := Apply(w, Teardown(a));
            (&& Stack(w', w.places[b]) == Stack(w, w.places[b])
             && w.places[b] in w'.records && w'.records[w.places[b]] == b)
            <==> w.places[a] != w.places[b]
  {
  }

  /** So with the staging path as everyone's mountpoint, the late teardown of a
      dead session takes its successor's mount and record. */
  lemma SharedPathBreaksIsolation(staging: Place)
    ensures var w := Apply(Apply(EMPTY, Start(1, staging)), Start(2, staging));
            var w' := Apply(w, Teardown(1));
            2 !in w'.ended && Stack(w', staging) == [1] && staging !in w'.records
  {
  }
}
