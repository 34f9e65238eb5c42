/** The single-flight cache of the host mount table: hostMountStacksOK,
    cachedMountsLocked and InvalidateHostMounts (pkg/rclone/mounts.go). Each
    operation below is one section the mutex protects; times are seconds. */
module MountCache {
  import opened Basics
  import opened MountInfo

  type Stacks = map<string, seq<HostMount>>

  const CACHE_TTL := 5
  const MAX_STALE := 90

  predicate Parsed(stacks: Stacks) {
    forall p :: p in stacks ==> stacks[p] != []
  }

  function Flat(stacks: Stacks): map<string, string>
    requires Parsed(stacks)
  {
    map p | p in stacks :: stacks[p][|stacks[p]| - 1].fsType
  }

  /** The package variables. readAt is None while it is the zero time. */
  datatype State = State(stacks: Option<Stacks>, flat: map<string, string>, readAt: Option<int>, inFlight: bool)

  datatype Answer = Trusted(stacks: Stacks) | Unknown | MustRead

  predicate Fresh(s: State, now: int) {
    s.stacks.Some? && s.readAt.Some? && now - s.readAt.value < CACHE_TTL
  }

  /** cachedMountsLocked. */
  function Cached(s: State, now: int): Answer {
    if s.stacks.Some? && s.readAt.Some? && now - s.readAt.value < MAX_STALE then Trusted(s.stacks.value) else Unknown
  }

  function Queried(s: State, now: int): (Answer, State) {
    if Fresh(s, now) then (Trusted(s.stacks.value), s)
    else if s.inFlight then (Cached(s, now), s)
    else (MustRead, s.(inFlight := true))
  }

  function Completed(s: State, now: int, table: Option<Stacks>): State
    requires table.Some? ==> Parsed(table.value)
  {
    match table
    case Some(stacks) => State(table, Flat(stacks), Some(now), false)
    case None => s.(inFlight := false)
  }

  function Invalidated(s: State, now: int): State {
    if s.readAt.Some? then s.(readAt := Some(now - CACHE_TTL)) else s
  }

  class MountTable {
    var stacks: Option<Stacks>
    var flat: map<string, string>
    var readAt: Option<int>
    var inFlight: bool

    ghost function View(): State
      reads this
    {
      State(stacks, flat, readAt, inFlight)
    }

    constructor ()
      ensures View() == State(None, map[], None, false)
    {
      stacks, flat, readAt, inFlight := None, map[], None, false;
    }

    /** The first locked section of a query: serve the table, or become the one
        reader. */
    method Query(now: int) returns (a: Answer)
      modifies this`inFlight
      ensures (a, View()) == Queried(old(View()), now)
    {
      if stacks.Some? && readAt.Some? && now - readAt.value < CACHE_TTL {
        return Trusted(stacks.value);
      }
      if inFlight {
        a := ServeCached(now);
        return;
      }
      inFlight := true;
      return MustRead;
    }

    /** Also what a query whose read outlives its budget falls back to. */
    method ServeCached(now: int) returns (a: Answer)
      ensures a == Cached(View(), now)
    {
      if stacks.None? || readAt.None? {
        return Unknown;
      }
      if now - readAt.value < MAX_STALE {
        return Trusted(stacks.value);
      }
      return Unknown;
    }

    /** The reader goroutine's locked section. `data` is the mountinfo text, or
        None when neither table could be read. */
    method Complete(now: int, data: Option<string>) returns (table: Option<Stacks>)
      modifies this
      ensures data.None? <==> table.None?
      ensures table.Some? ==> Parsed(table.value) && StacksOf(table.value, ParsedLines(Lines(data.value)))
      ensures View() == Completed(old(View()), now, table)
    {
      table := None;
      if data.Some? {
        var m := ParseMountStacks(data.value);
        table := Some(m);
        stacks := Some(m);
        flat := FlattenMountStacks(m);
        assert flat == Flat(m);
        readAt := Some(now);
      }
      inFlight := false;
    }

    method Invalidate(now: int)
      modifies this`readAt
      ensures View() == Invalidated(old(View()), now)
    {
      if readAt.Some? {
        readAt := Some(now - CACHE_TTL);
      }
    }
  }

  // ---- runs ----

  /** The cache, the reader goroutines alive, the last whole read that completed
      and when, and the last invalidation since. */
  datatype World = World(s: State, readers: nat, lastRead: Option<(int, Stacks)>, invalidatedAt: Option<int>, now: int)

  const START := World(State(None, map[], None, false), 0, None, None, 0)

  datatype Event =
    | Query(at: int)
    | GiveUp(at: int)                            // a query's five-second budget runs out
    | Complete(at: int, table: Option<Stacks>)   // the read in flight ends
    | Invalidate(at: int)

  predicate Possible(w: World, e: Event) {
    && w.now <= e.at
    && (e.Complete? ==> w.readers > 0 && (e.table.Some? ==> Parsed(e.table.value)))
  }

  function Apply(w: World, e: Event): World
    requires Possible(w, e)
  {
    match e
    case Query(at) =>
      var (a, s) := Queried(w.s, at);
      w.(s := s, readers := if a.MustRead? then w.readers + 1 else w.readers, now := at)
    case GiveUp(at) => w.(now := at)
    case Complete(at, table) =>
      World(Completed(w.s, at, table), w.readers - 1,
            if table.Some? then Some((at, table.value)) else w.lastRead,
            if table.Some? then None else w.invalidatedAt, at)
    case Invalidate(at) => w.(s := Invalidated(w.s, at), now := at,
                              invalidatedAt := if w.lastRead.Some? then Some(at) else None)
  }

  /** What is answered at time e.at: to a query, to one that gives up waiting for its
      own read, and to one whose read ends in time. */
  function AnswerTo(w: World, e: Event): Answer
    requires !e.Invalidate?
  {
    match e
    case Query(at) => Queried(w.s, at).0
    case GiveUp(at) => Cached(w.s, at)
    case Complete(_, table) => if table.Some? then Trusted(table.value) else Unknown
  }

  ghost predicate Inv(w: World) {
    && w.readers == (if w.s.inFlight then 1 else 0)
    && (w.lastRead.None? <==> w.s.stacks.None?) && (w.lastRead.None? <==> w.s.readAt.None?)
    && (w.lastRead.Some? ==>
          && w.s.stacks == Some(w.lastRead.value.1) && Parsed(w.s.stacks.value) && w.s.flat == Flat(w.s.stacks.value)
          && w.lastRead.value.0 <= w.now
          && w.s.readAt ==
             Some(if w.invalidatedAt.Some? then w.invalidatedAt.value - CACHE_TTL else w.lastRead.value.0))
    && (w.invalidatedAt.Some? ==> w.lastRead.Some? && w.lastRead.value.0 <= w.invalidatedAt.value <= w.now)
  }

  ghost predicate Run(w: World, events: seq<Event>, w': World)
    decreases |events|
  {
    if events == [] then w == w' else Possible(w, events[0]) && Run(Apply(w, events[0]), events[1..], w')
  }

  lemma StepKeepsInv(w: World, e: Event)
    requires Inv(w) && Possible(w, e)
    ensures Inv(Apply(w, e))
  {
  }

  lemma {:induction false} RunKeepsInv(w: World, events: seq<Event>, w': World)
    requires Inv(w) && Run(w, events, w')
    ensures Inv(w')
    decreases |events|
  {
    if events != [] {
      StepKeepsInv(w, events[0]);
      RunKeepsInv(Apply(w, events[0]), events[1..], w');
    }
  }

  /** In every interleaving of queries, slow reads and invalidations: at most one
      read is in flight, and the flat view is the top of the stack view. */
  lemma OneReadInFlightAndViewsAgree(events: seq<Event>, w: World)
    requires Run(START, events, w)
    ensures w.readers <= 1
    ensures w.s.stacks.Some? ==> TopOf(w.s.flat, w.s.stacks.value)
  {
    RunKeepsInv(START, events, w);
  }

  /** The age limit on an answer: 90 seconds since the last completed read, or 85
      since the last invalidation after it. */
  predicate YoungEnough(w: World, now: int, limit: int) {
    w.lastRead.Some? &&
    if w.invalidatedAt.None? then now - w.lastRead.value.0 < limit
    else now - w.invalidatedAt.value < limit - 5
  }

  /** Exactly which answers are trusted, in every run: the last whole read that
      completed, as long as it is young enough, or the query's own read if it was
      whole. A query that finds no read in flight reads unless the table is under
      five seconds old and not invalidated since, and is then answered Unknown if
      that read fails, whatever table there is. */
  lemma TrustedExactly(events: seq<Event>, w: World, e: Event)
    requires Run(START, events, w) && Possible(w, e) && !e.Invalidate?
    ensures AnswerTo(w, e).Trusted? ==>
              Apply(w, e).lastRead.Some? && AnswerTo(w, e).stacks == Apply(w, e).lastRead.value.1
    ensures e.GiveUp? || (e.Query? && w.s.inFlight) ==> (AnswerTo(w, e).Trusted? <==> YoungEnough(w, e.at, 90))
    ensures e.Query? && !w.s.inFlight ==>
              (AnswerTo(w, e).Trusted? <==> YoungEnough(w, e.at, 5)) && !AnswerTo(w, e).Unknown?
    ensures e.Complete? ==> (AnswerTo(w, e).Trusted? <==> e.table.Some?)
    ensures e.Query? && w.invalidatedAt.Some? && !w.s.inFlight ==> AnswerTo(w, e).MustRead?
  {
    RunKeepsInv(START, events, w);
  }

  /** A read that fails in time is answered Unknown beside a table that a query
      waiting longer would still be given. */
  lemma FailedReadHidesAYoungTable(table: Stacks)
    requires Parsed(table)
    ensures exists events, w :: Run(START, events, w) && Possible(w, Complete(10, None))
                                && AnswerTo(w, Complete(10, None)).Unknown? && AnswerTo(w, GiveUp(10)) == Trusted(table)
  {
    var events := [Query(0), Complete(0, Some(table)), Query(10)];
    var w1 := Apply(START, events[0]);
    var w2 := Apply(w1, events[1]);
    var w3 := Apply(w2, events[2]);
    assert events[1..][1..][1..] == [];
    assert Run(w3, [], w3);
    assert events[1..][1..] == [events[2]] && Run(w2, [events[2]], w3);
    assert events[1..] == [events[1], events[2]] && Run(w1, events[1..], w3);
    assert Run(START, events, w3);
  }

  /** Each invalidation re-stamps the table, so it can make an old one look
      younger: with the reader stuck, a table 160 seconds old is still trusted. */
  lemma InvalidationRejuvenatesATable(table: Stacks)
    requires Parsed(table)
    ensures exists events, w :: Run(START, events, w) && w.now == 160 && w.lastRead == Some((0, table))
                                && AnswerTo(w, Query(160)) == Trusted(table)
  {
    var events := [Query(0), Complete(0, Some(table)), Query(80), Invalidate(160)];
    var w1 := Apply(START, events[0]);
    var w2 := Apply(w1, events[1]);
    var w3 := Apply(w2, events[2]);
    var w4 := Apply(w3, events[3]);
    assert events[1..][1..][1..][1..] == [];
    assert Run(w4, [], w4);
    assert events[1..][1..][1..] == [events[3]] && Run(w3, [events[3]], w4);
    assert events[1..][1..] == [events[2], events[3]] && Run(w2, [events[2], events[3]], w4);
    assert events[1..] == [events[1], events[2], events[3]] && Run(w1, events[1..], w4);
    assert Run(START, events, w4);
  }

  /** Nor does it cancel a read already in flight: what that read saw before the
      invalidation is then served as fresh. */
  lemma ReadInFlightSurvivesInvalidation(w: World, t: int, table: Stacks)
    requires Inv(w) && w.readers == 1 && w.now <= t && Parsed(table)
    ensures var w' := Apply(Apply(w, Invalidate(t)), Complete(t, Some(table)));
            AnswerTo(w', Query(t)) == Trusted(table)
  {
  }
}
