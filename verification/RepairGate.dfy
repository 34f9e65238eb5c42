/** The rate limits on repair: reconcileAllowed's backoff and
    consumerRestartAllowed's cooldown (pkg/driver/node_s3.go). Times are
    nanoseconds; clocks are assumed not to run backwards. */
module RepairGate {
  import opened Basics

  const MINUTE := 60_000_000_000
  const FREE_ATTEMPTS := 2
  const BACKOFF_BASE := 2 * MINUTE
  const BACKOFF_MAX := 15 * MINUTE
  const RESTART_COOLDOWN := 5 * MINUTE

  function Min(a: int, b: int): int { if a < b then a else b }

  function Pow2(n: nat): nat { if n == 0 then 1 else 2 * Pow2(n - 1) }

  /** How long the next attempt must wait after `count` attempts in a row. */
  function Wait(count: nat): int {
    if count < FREE_ATTEMPTS then 0
    else Min(BACKOFF_BASE * Pow2(Min(count - FREE_ATTEMPTS, 3)), BACKOFF_MAX)
  }

  datatype Attempt = Attempt(count: nat, last: int)

  predicate MayAttempt(a: Attempt, now: int) {
    now - a.last >= Wait(a.count) || a.count < FREE_ATTEMPTS
  }

  /** Two attempts are free, and the waits after them are 2, 4, 8 and then always 15
      minutes. */
  lemma MayAttemptExactly(a: Attempt, now: int)
    ensures MayAttempt(a, now) <==>
            a.count < 2 || now - a.last >= (if a.count == 2 then 120_000_000_000
                                            else if a.count == 3 then 240_000_000_000
                                            else if a.count == 4 then 480_000_000_000
                                            else 900_000_000_000)
  {
    assert Pow2(0) == 1 && Pow2(1) == 2 && Pow2(2) == 4 && Pow2(3) == 8;
  }

  datatype RestartCall = RestartCall(now: int, registered: bool)

  predicate MayRestart(last: Option<int>, call: RestartCall) {
    call.registered && (last.Some? ==> call.now - last.value >= RESTART_COOLDOWN)
  }

  class NodeServer {
    var reconcileAttempts: map<string, Attempt>
    var consumerRestartTimes: map<string, int>

    constructor ()
      ensures reconcileAttempts == map[] && consumerRestartTimes == map[]
    {
      reconcileAttempts, consumerRestartTimes := map[], map[];
    }

    ghost function AttemptOf(volumeID: string): Attempt
      reads this
    {
      if volumeID in reconcileAttempts then reconcileAttempts[volumeID] else Attempt(0, 0)
    }

    ghost function RestartOf(volumeID: string): Option<int>
      reads this
    {
      if volumeID in consumerRestartTimes then Some(consumerRestartTimes[volumeID]) else None
    }

    method ReconcileAllowed(volumeID: string, now: int) returns (ok: bool)
      modifies this`reconcileAttempts
      ensures ok == MayAttempt(old(AttemptOf(volumeID)), now)
      // two free attempts, then waits of 2, 4, 8 and from then on 15 minutes
      ensures var a := old(AttemptOf(volumeID));
              ok <==> a.count < 2 || now - a.last >= (if a.count == 2 then 120_000_000_000
                                                      else if a.count == 3 then 240_000_000_000
                                                      else if a.count == 4 then 480_000_000_000
                                                      else 900_000_000_000)
      ensures AttemptOf(volumeID) ==
                if ok then Attempt(old(AttemptOf(volumeID)).count + 1, now) else old(AttemptOf(volumeID))
      ensures forall u :: u != volumeID ==> AttemptOf(u) == old(AttemptOf(u))
    {
      var a := Attempt(0, 0);
      if volumeID in reconcileAttempts {
        a := reconcileAttempts[volumeID];
      }
      MayAttemptExactly(a, now);
      if a.count >= FREE_ATTEMPTS {
        var wait := Min(BACKOFF_BASE * Pow2(Min(a.count - FREE_ATTEMPTS, 3)), BACKOFF_MAX);
        if now - a.last < wait {
          return false;
        }
      }
      reconcileAttempts := reconcileAttempts[volumeID := Attempt(a.count + 1, now)];
      return true;
    }

    method ReconcileSucceeded(volumeID: string)
      modifies this`reconcileAttempts
      ensures AttemptOf(volumeID) == Attempt(0, 0)
      ensures forall u :: u != volumeID ==> AttemptOf(u) == old(AttemptOf(u))
    {
      reconcileAttempts := reconcileAttempts - {volumeID};
    }

    method ConsumerRestartAllowed(volumeID: string, call: RestartCall) returns (ok: bool)
      modifies this`consumerRestartTimes
      ensures ok == MayRestart(old(RestartOf(volumeID)), call)
      // registered, and five minutes after the last one, if there was any
      ensures var last := old(RestartOf(volumeID));
              ok <==> call.registered && (last.None? || call.now - last.value >= 300_000_000_000)
      ensures RestartOf(volumeID) == if ok then Some(call.now) else old(RestartOf(volumeID))
      ensures forall u :: u != volumeID ==> RestartOf(u) == old(RestartOf(u))
    {
      if !call.registered {
        return false;
      }
      if volumeID in consumerRestartTimes && call.now - consumerRestartTimes[volumeID] < RESTART_COOLDOWN {
        return false;
      }
      consumerRestartTimes := consumerRestartTimes[volumeID := call.now];
      return true;
    }
  }

  // ---- runs of reconcileAllowed with no healthy observation between ----

  predicate Forward(times: seq<int>) {
    forall i, j :: 0 <= i < j < |times| ==> times[i] <= times[j]
  }

  /** The times at which a run of calls is allowed, from state `a` on. */
  function AllowedAt(a: Attempt, calls: seq<int>): seq<int>
    decreases |calls|
  {
    if calls == [] then []
    else if MayAttempt(a, calls[0]) then [calls[0]] + AllowedAt(Attempt(a.count + 1, calls[0]), calls[1..])
    else AllowedAt(a, calls[1..])
  }

  /** Consecutive allowed attempts, the first of them number `count` + 1, are
      separated by at least the backoff. */
  ghost predicate Spaced(times: seq<int>, count: nat) {
    forall k :: 0 <= k < |times| - 1 ==> times[k + 1] - times[k] >= Wait(count + k + 1)
  }

  lemma {:induction false} AllowedAreSpaced(a: Attempt, calls: seq<int>)
    requires Forward(calls) && (a.count > 0 && calls != [] ==> a.last <= calls[0])
    ensures Spaced(AllowedAt(a, calls), a.count)
    ensures a.count > 0 && AllowedAt(a, calls) != [] ==> AllowedAt(a, calls)[0] - a.last >= Wait(a.count)
    decreases |calls|
  {
    if calls != [] {
      var rest := calls[1..];
      assert Forward(rest);
      if MayAttempt(a, calls[0]) {
        var a' := Attempt(a.count + 1, calls[0]);
        AllowedAreSpaced(a', rest);
        var tail := AllowedAt(a', rest);
        assert AllowedAt(a, calls) == [calls[0]] + tail;
        forall k | 0 <= k < |tail|
          ensures ([calls[0]] + tail)[k + 1] - ([calls[0]] + tail)[k] >= Wait(a.count + k + 1)
        {
          if k > 0 { assert tail[k] - tail[k - 1] >= Wait(a'.count + (k - 1) + 1); }
        }
        WaitIsBounded(a.count);
      } else {
        AllowedAreSpaced(a, rest);
      }
    }
  }

  lemma WaitIsBounded(count: nat)
    ensures 0 <= Wait(count) <= BACKOFF_MAX
    ensures Wait(count) <= Wait(count + 1)
    ensures count >= 5 ==> Wait(count) == BACKOFF_MAX
    ensures Wait(2) == 2 * MINUTE && Wait(3) == 4 * MINUTE && Wait(4) == 8 * MINUTE
  {
    assert Pow2(0) == 1 && Pow2(1) == 2 && Pow2(2) == 4 && Pow2(3) == 8;
  }

  lemma {:induction false} WaitIsMonotone(m: nat, n: nat)
    requires m <= n
    ensures Wait(m) <= Wait(n)
    decreases n
  {
    if m < n {
      WaitIsMonotone(m, n - 1);
      WaitIsBounded(n - 1);
    }
  }

  /** The least time n attempts in a row can take. */
  function LeastSpan(n: nat): int {
    if n <= 1 then 0 else LeastSpan(n - 1) + Wait(n - 1)
  }

  lemma {:induction false} LeastSpanGrows(n: nat)
    ensures LeastSpan(n) >= (n - 5) * BACKOFF_MAX
  {
    WaitIsBounded(n);
    if n <= 5 {
      assert LeastSpan(0) == 0 && LeastSpan(1) == 0;
      if n >= 2 { LeastSpanNonNegative(n); }
    } else {
      LeastSpanGrows(n - 1);
      WaitIsBounded(n - 1);
      assert (n - 5) * BACKOFF_MAX == (n - 6) * BACKOFF_MAX + BACKOFF_MAX;
    }
  }

  lemma {:induction false} LeastSpanNonNegative(n: nat)
    ensures LeastSpan(n) >= 0
  {
    if n > 1 {
      LeastSpanNonNegative(n - 1);
      WaitIsBounded(n - 1);
    }
  }

  lemma {:induction false} SpanOfAttempts(times: seq<int>, i: nat, j: nat)
    requires Spaced(times, 0) && i <= j < |times|
    ensures times[j] - times[i] >= LeastSpan(j - i + 1)
    decreases j
  {
    if i < j {
      SpanOfAttempts(times, i, j - 1);
      assert times[(j - 1) + 1] - times[j - 1] >= Wait(0 + (j - 1) + 1);
      WaitIsMonotone(j - i, j);
    }
  }

  lemma {:induction false} RangeSize(lo: nat, hi: nat, s: set<nat>)
    requires forall k :: k in s ==> lo <= k < hi
    ensures |s| <= if lo <= hi then hi - lo else 0
    decreases hi
  {
    if hi > lo {
      var top := hi - 1;
      RangeSize(lo, top, s - {top});
      assert s <= (s - {top}) + {top};
      assert |s| <= |s - {top}| + 1;
    } else {
      assert s == {};
    }
  }

  /** In every run of calls, any window of w nanoseconds holds at most
      5 + w / 15 minutes allowed repairs. */
  lemma RepairsAreRateLimited(calls: seq<int>, start: int, w: nat)
    requires Forward(calls)
    ensures var times := AllowedAt(Attempt(0, 0), calls);
            |set k: nat | k < |times| && start <= times[k] <= start + w| <= 5 + w / 900_000_000_000
  {
    var times := AllowedAt(Attempt(0, 0), calls);
    AllowedAreSpaced(Attempt(0, 0), calls);
    var window := set k: nat | k < |times| && start <= times[k] <= start + w;
    if window != {} {
      var i, j := Least(window), Greatest(window);
      RangeSize(i, j + 1, window);
      AttemptsInSpan(times, i, j, w);
    }
  }

  lemma AttemptsInSpan(times: seq<int>, i: nat, j: nat, w: nat)
    requires Spaced(times, 0) && i <= j < |times| && times[j] - times[i] <= w
    ensures j - i + 1 <= 5 + w / BACKOFF_MAX
  {
    SpanOfAttempts(times, i, j);
    LeastSpanGrows(j - i + 1);
    assert (j - i - 4) * BACKOFF_MAX <= w;
  }

  ghost function Least(s: set<nat>): (m: nat)
    requires s != {}
    ensures m in s && forall k :: k in s ==> m <= k
  {
    var x :| x in s;
    if s == {x} then x
    else
      assert s - {x} != {} && s == (s - {x}) + {x};
      var m := Least(s - {x});
      if m < x then m else x
  }

  ghost function Greatest(s: set<nat>): (m: nat)
    requires s != {}
    ensures m in s && forall k :: k in s ==> k <= m
  {
    var x :| x in s;
    if s == {x} then x
    else
      assert s - {x} != {} && s == (s - {x}) + {x};
      var m := Greatest(s - {x});
      if m > x then m else x
  }

  /** And no volume is given up on: fifteen minutes after the last allowed attempt
      the next call is allowed, however many there have been. */
  lemma RepairAlwaysResumes(a: Attempt, now: int)
    requires now - a.last >= 900_000_000_000
    ensures MayAttempt(a, now)
  {
    WaitIsBounded(a.count);
  }

  // ---- destructive restarts ----

  function RestartsAt(last: Option<int>, calls: seq<RestartCall>): seq<int>
    decreases |calls|
  {
    if calls == [] then []
    else if MayRestart(last, calls[0]) then [calls[0].now] + RestartsAt(Some(calls[0].now), calls[1..])
    else RestartsAt(last, calls[1..])
  }

  function OnlyRegistered(calls: seq<RestartCall>): seq<RestartCall> {
    if calls == [] then []
    else (if calls[0].registered then [calls[0]] else []) + OnlyRegistered(calls[1..])
  }

  /** Restarts of one volume's consumers are at least five minutes apart. */
  lemma {:induction false} RestartsAreApart(last: Option<int>, calls: seq<RestartCall>)
    ensures var times := RestartsAt(last, calls);
            (forall k :: 0 <= k < |times| - 1 ==> times[k + 1] - times[k] >= 300_000_000_000)
            && (last.Some? && times != [] ==> times[0] - last.value >= 300_000_000_000)
    decreases |calls|
  {
    if calls != [] {
      var rest := calls[1..];
      if MayRestart(last, calls[0]) {
        RestartsAreApart(Some(calls[0].now), rest);
        var tail := RestartsAt(Some(calls[0].now), rest);
        assert RestartsAt(last, calls) == [calls[0].now] + tail;
        forall k | 0 <= k < |tail|
          ensures ([calls[0].now] + tail)[k + 1] - ([calls[0].now] + tail)[k] >= RESTART_COOLDOWN
        {
          if k > 0 { assert tail[(k - 1) + 1] - tail[k - 1] >= RESTART_COOLDOWN; }
        }
      } else {
        RestartsAreApart(last, rest);
        assert RestartsAt(last, calls) == RestartsAt(last, rest);
      }
    }
  }

  /** Calls made while the driver is not registered with kubelet leave no trace:
      the restarts are those of the run without them. */
  lemma {:induction false} UnregisteredCallsDelayNothing(last: Option<int>, calls: seq<RestartCall>)
    ensures RestartsAt(last, calls) == RestartsAt(last, OnlyRegistered(calls))
    decreases |calls|
  {
    if calls != [] {
      var rest := calls[1..];
      if calls[0].registered {
        assert OnlyRegistered(calls) == [calls[0]] + OnlyRegistered(rest);
        assert OnlyRegistered(calls)[1..] == OnlyRegistered(rest);
        UnregisteredCallsDelayNothing(if MayRestart(last, calls[0]) then Some(calls[0].now) else last, rest);
      } else {
        assert OnlyRegistered(calls) == OnlyRegistered(rest);
        UnregisteredCallsDelayNothing(last, rest);
      }
    }
  }

  /** And none is put off for longer: in every run of calls, each registered one that
      comes five minutes after all restarts before it is a restart itself. */
  lemma {:induction false} RestartsResume(last: Option<int>, calls: seq<RestartCall>, k: nat)
    requires k < |calls| && calls[k].registered
    requires last.Some? ==> calls[k].now - last.value >= 300_000_000_000
    requires forall i :: 0 <= i < k ==> calls[k].now - calls[i].now >= 300_000_000_000
    ensures calls[k].now in RestartsAt(last, calls)
    decreases |calls|
  {
    if k > 0 {
      var next := if MayRestart(last, calls[0]) then Some(calls[0].now) else last;
      RestartsResume(next, calls[1..], k - 1);
    }
  }
}
