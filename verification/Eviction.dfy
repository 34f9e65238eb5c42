/** evictCacheIfNeeded: oldest-first eviction of one volume's cache directory
    (pkg/rclone/syncmanager.go). Sizes are unbounded integers here. */
module Eviction {
  import opened Basics

  datatype CachedFile = CachedFile(path: string, size: nat, modTime: int)

  function TotalSize(files: seq<CachedFile>): nat {
    if files == [] then 0 else files[0].size + TotalSize(files[1..])
  }

  predicate OldestFirst(files: seq<CachedFile>) {
    forall i, j :: 0 <= i < j < |files| ==> files[i].modTime <= files[j].modTime
  }

  /** Bytes of the files a pass left, and of those it removed. */
  function SizeLeft(files: seq<CachedFile>, removed: seq<bool>): nat
    requires |files| == |removed|
  {
    if files == [] then 0
    else SizeLeft(files[..|files| - 1], removed[..|files| - 1])
         + (if removed[|files| - 1] then 0 else files[|files| - 1].size)
  }

  function SizeRemoved(files: seq<CachedFile>, removed: seq<bool>): nat
    requires |files| == |removed|
  {
    if files == [] then 0
    else SizeRemoved(files[..|files| - 1], removed[..|files| - 1])
         + (if removed[|files| - 1] then files[|files| - 1].size else 0)
  }

  /** The limit a pass works to: 70% of what the volume holds when the shared cache
      disk is nearly full and that is less than its own limit, which it is otherwise. */
  function Limit(total: nat, maxBytes: nat, diskNearlyFull: bool): nat {
    if diskNearlyFull && total * 7 / 10 < maxBytes then total * 7 / 10 else maxBytes
  }

  lemma {:induction false} TotalSizeAppend(a: seq<CachedFile>, f: CachedFile)
    ensures TotalSize(a + [f]) == TotalSize(a) + f.size
  {
    if a == [] {
      assert a + [f] == [f] && [f][1..] == [];
    } else {
      assert (a + [f])[1..] == a[1..] + [f];
      TotalSizeAppend(a[1..], f);
    }
  }

  lemma {:induction false} TotalSizePermutes(a: seq<CachedFile>, b: seq<CachedFile>)
    requires multiset(a) == multiset(b)
    ensures TotalSize(a) == TotalSize(b)
    decreases |a|
  {
    if a == [] {
      assert |multiset(b)| == 0;
    } else {
      var f := a[0];
      assert f in multiset(b);
      var k :| 0 <= k < |b| && b[k] == f;
      assert a == [f] + a[1..];
      assert b == b[..k] + [f] + b[k + 1..];
      assert multiset(a[1..]) == multiset(a) - multiset{f};
      assert multiset(b[..k] + b[k + 1..]) == multiset(b) - multiset{f};
      TotalSizePermutes(a[1..], b[..k] + b[k + 1..]);
      MoveToFront(b[..k], f, b[k + 1..]);
    }
  }

  lemma {:induction false} MoveToFront(a: seq<CachedFile>, f: CachedFile, b: seq<CachedFile>)
    ensures TotalSize(a + [f] + b) == f.size + TotalSize(a + b)
  {
    if a == [] {
      assert a + [f] + b == [f] + b && ([f] + b)[1..] == b && a + b == b;
    } else {
      assert (a + [f] + b)[1..] == a[1..] + [f] + b;
      assert (a + b)[1..] == a[1..] + b;
      MoveToFront(a[1..], f, b);
    }
  }

  lemma {:induction false} LeftAndRemoved(files: seq<CachedFile>, removed: seq<bool>)
    requires |files| == |removed|
    ensures SizeLeft(files, removed) + SizeRemoved(files, removed) == TotalSize(files)
  {
    if files != [] {
      var n := |files| - 1;
      LeftAndRemoved(files[..n], removed[..n]);
      TotalSizeAppend(files[..n], files[n]);
      assert files[..n] + [files[n]] == files;
    }
  }

  // ---- sorting ----

  lemma InsertedInOrder(files: seq<CachedFile>, f: CachedFile, k: nat)
    requires OldestFirst(files) && k <= |files|
    requires k > 0 ==> files[k - 1].modTime <= f.modTime
    requires k < |files| ==> f.modTime <= files[k].modTime
    ensures OldestFirst(files[..k] + [f] + files[k..])
  {
    var out := files[..k] + [f] + files[k..];
    forall i, j | 0 <= i < j < |out|
      ensures out[i].modTime <= out[j].modTime
    {
      assert out[i] == if i < k then files[i] else if i == k then f else files[i - 1];
      assert out[j] == if j < k then files[j] else if j == k then f else files[j - 1];
    }
  }

  lemma InsertedOnce(files: seq<CachedFile>, f: CachedFile, k: nat)
    requires k <= |files|
    ensures multiset(files[..k] + [f] + files[k..]) == multiset(files) + multiset{f}
  {
    assert files == files[..k] + files[k..];
  }

  method InsertByAge(files: seq<CachedFile>, f: CachedFile) returns (out: seq<CachedFile>)
    requires OldestFirst(files)
    ensures OldestFirst(out) && multiset(out) == multiset(files) + multiset{f}
  {
    var k := |files|;
    while k > 0 && f.modTime < files[k - 1].modTime
      invariant 0 <= k <= |files|
      invariant forall j :: k <= j < |files| ==> f.modTime <= files[j].modTime
    {
      k := k - 1;
    }
    out := files[..k] + [f] + files[k..];
    InsertedInOrder(files, f, k);
    InsertedOnce(files, f, k);
  }

  /** sort.Slice by modification time: some permutation, oldest first. */
  method SortByAge(files: seq<CachedFile>) returns (out: seq<CachedFile>)
    ensures OldestFirst(out) && multiset(out) == multiset(files)
  {
    out := [];
    for i := 0 to |files|
      invariant OldestFirst(out) && multiset(out) == multiset(files[..i])
    {
      assert files[..i + 1] == files[..i] + [files[i]];
      out := InsertByAge(out, files[i]);
    }
    assert files[..|files|] == files;
  }

  // ---- the pass ----

  predicate MayGo(f: CachedFile, open: set<string>, unremovable: set<string>) {
    f.path !in open && f.path !in unremovable
  }

  /** What a pass over `order` that works down to `limit` must have done. */
  ghost predicate EvictedTo(order: seq<CachedFile>, removed: seq<bool>, limit: nat,
                            open: set<string>, unremovable: set<string>)
  {
    && |removed| == |order|
    // every removal was of a file that may go, and happened while over the limit
    && (forall i :: 0 <= i < |order| && removed[i] ==>
          MayGo(order[i], open, unremovable) && TotalSize(order) - SizeRemoved(order[..i], removed[..i]) > limit)
    // a file passed over for a younger one could not go
    && (forall i, j :: 0 <= i < j < |order| && removed[j] && !removed[i] ==> !MayGo(order[i], open, unremovable))
    // still over the limit: nothing left could go
    && (SizeLeft(order, removed) > limit ==>
          forall i :: 0 <= i < |order| && !removed[i] ==> !MayGo(order[i], open, unremovable))
  }

  lemma {:induction false} RestKept(order: seq<CachedFile>, removed: seq<bool>, n: nat)
    requires n <= |order| == |removed| && forall i :: n <= i < |order| ==> !removed[i]
    ensures SizeRemoved(order, removed) == SizeRemoved(order[..n], removed[..n])
    decreases |order|
  {
    if n < |order| {
      var m := |order| - 1;
      RestKept(order[..m], removed[..m], n);
      assert order[..m][..n] == order[..n] && removed[..m][..n] == removed[..n];
    } else {
      assert order[..n] == order && removed[..n] == removed;
    }
  }

  /** The removal loop. */
  method RemoveOldest(order: seq<CachedFile>, limit: nat, open: set<string>, unremovable: set<string>)
    returns (removed: seq<bool>, total: int)
    ensures EvictedTo(order, removed, limit, open, unremovable)
    ensures total == SizeLeft(order, removed)
  {
    removed := seq(|order|, i => false);
    total := TotalSize(order);
    var n := 0;
    while n < |order| && total > limit
      invariant 0 <= n <= |order| == |removed|
      invariant forall k :: n <= k < |order| ==> !removed[k]
      invariant total == TotalSize(order) - SizeRemoved(order[..n], removed[..n])
      invariant forall k :: 0 <= k < n ==> removed[k] == MayGo(order[k], open, unremovable)
      invariant forall k :: 0 <= k < n && removed[k] ==>
                  TotalSize(order) - SizeRemoved(order[..k], removed[..k]) > limit
    {
      ghost var before := removed;
      if order[n].path !in open && order[n].path !in unremovable {
        removed := removed[n := true];
        total := total - order[n].size;
      }
      assert order[..n + 1][..n] == order[..n] && removed[..n + 1][..n] == before[..n];
      assert forall k :: 0 <= k <= n ==> removed[..k] == before[..k];
      n := n + 1;
    }
    RestKept(order, removed, n);
    LeftAndRemoved(order, removed);
  }

  /** Every file left is open or cannot be removed. */
  ghost predicate NothingMayGo(order: seq<CachedFile>, removed: seq<bool>, open: set<string>, unremovable: set<string>)
  {
    forall i :: 0 <= i < |order| && i < |removed| && !removed[i] ==>
      order[i].path in open || order[i].path in unremovable
  }

  /** One eviction pass. `quiet` says that nothing is transferring and vfs/stats
      confirmed an empty queue, `open` is the descriptor scan (None when it failed)
      and `unremovable` the files os.Remove fails on. `order` is the sequence the
      pass considered the files in and `removed` what became of each. */
  method EvictCacheIfNeeded(files: seq<CachedFile>, maxBytes: nat, quiet: bool, diskNearlyFull: bool,
                            open: Option<set<string>>, unremovable: set<string>)
    returns (order: seq<CachedFile>, removed: seq<bool>, total: int)
    ensures multiset(order) == multiset(files) && |removed| == |order|
    ensures total == SizeLeft(order, removed)
    // nothing goes unless the pass may run
    ensures !quiet || open.None? ==> forall i :: 0 <= i < |removed| ==> !removed[i]
    ensures quiet && open.Some? ==>
              var limit := Limit(TotalSize(files), maxBytes, diskNearlyFull);
              && EvictedTo(order, removed, limit, open.value, unremovable)
              && (TotalSize(files) > limit ==> OldestFirst(order))
              && (TotalSize(files) <= limit ==> forall i :: 0 <= i < |removed| ==> !removed[i])
    // within its own limit, and with room on the disk, a volume keeps everything
    ensures !diskNearlyFull && TotalSize(files) <= maxBytes ==> forall i :: 0 <= i < |removed| ==> !removed[i]
    // a pass ends within the volume's limit, and below 70% of what there was on a disk
    // nearly full, or with nothing left that may go
    ensures quiet && open.Some? ==>
              SizeLeft(order, removed) <= maxBytes || NothingMayGo(order, removed, open.value, unremovable)
    ensures quiet && open.Some? && diskNearlyFull ==>
              10 * SizeLeft(order, removed) <= 7 * TotalSize(files)
              || NothingMayGo(order, removed, open.value, unremovable)
    // and takes only files that may go, and none before it has to
    ensures forall i :: 0 <= i < |order| && removed[i] ==>
              && order[i].path !in open.GetOr({}) && order[i].path !in unremovable
              && var left := TotalSize(files) - SizeRemoved(order[..i], removed[..i]);
                 left > maxBytes || (diskNearlyFull && 10 * left > 7 * TotalSize(files))
  {
    order, removed := files, seq(|files|, i => false);
    NothingRemoved(files, removed);
    total := TotalSize(files);
    if !quiet {
      return;
    }
    total := 0;
    for i := 0 to |files|
      invariant total == TotalSize(files[..i])
    {
      assert files[..i + 1] == files[..i] + [files[i]];
      TotalSizeAppend(files[..i], files[i]);
      total := total + files[i].size;
    }
    assert files[..|files|] == files;
    var limit := maxBytes;
    if diskNearlyFull {
      var shed := total * 7 / 10;
      if shed < limit {
        limit := shed;
      }
    }
    if total <= limit || open.None? {
      return;
    }
    order := SortByAge(files);
    TotalSizePermutes(files, order);
    assert total == TotalSize(order);
    removed, total := RemoveOldest(order, limit, open.value, unremovable);
  }

  /** What happens to files while a pass runs: which are dirty and which open when
      the queue is probed; which are open, closed or written to by the time the
      descriptors are listed; and which are written to after that. Writing needs an
      open file, and with the queue empty every dirty file is open. */
  datatype During = During(dirty: set<string>, open: set<string>, openLater: set<string>, closed: set<string>,
                           written: set<string>, writtenLater: set<string>)
  {
    predicate Coherent() { dirty <= open && written <= open + openLater }

    function Listed(): set<string> { open + openLater - closed }

    function DirtyAtTheEnd(): set<string> { dirty + written + writtenLater }
  }

  ghost predicate Spares(order: seq<CachedFile>, removed: seq<bool>, dirty: set<string>)
    requires |order| == |removed|
  {
    forall i :: 0 <= i < |order| && order[i].path in dirty ==> !removed[i]
  }

  /** Exactly when no pass whatsoever removes a file that is dirty by its end: no
      file dirty at the probe or written since is closed by the listing, and none
      closed at the listing is written to after it. */
  lemma PassSparesDirtyFilesExactly(d: During)
    requires d.Coherent()
    ensures (forall order, removed, limit, unremovable :: EvictedTo(order, removed, limit, d.Listed(), unremovable) ==>
               Spares(order, removed, d.DirtyAtTheEnd()))
            <==> (d.dirty + d.written) !! d.closed && d.writtenLater <= d.Listed()
  {
    if (d.dirty + d.written) !! d.closed && d.writtenLater <= d.Listed() {
      assert d.DirtyAtTheEnd() <= d.Listed();
    } else {
      var p :| p in d.DirtyAtTheEnd() && p !in d.Listed();
      RemovesIt(p, d.Listed());
      assert !Spares([CachedFile(p, 1, 0)], [true], d.DirtyAtTheEnd());
    }
  }

  /** A file that is not listed open goes when it is all there is over the limit. */
  lemma RemovesIt(path: string, open: set<string>)
    requires path !in open
    ensures EvictedTo([CachedFile(path, 1, 0)], [true], 0, open, {})
  {
    var order, removed := [CachedFile(path, 1, 0)], [true];
    assert order[..0] == [] && removed[..0] == [] && order[1..] == [];
    assert TotalSize(order) == 1 && SizeLeft(order, removed) == 0;
  }

  /** A pass that has something over the limit to remove does get under it when
      the files that may not go fit. */
  lemma {:induction false} ImmovableSize(order: seq<CachedFile>, removed: seq<bool>, open: set<string>,
                                         unremovable: set<string>)
    requires |order| == |removed|
    requires forall i :: 0 <= i < |order| && !removed[i] ==> !MayGo(order[i], open, unremovable)
    ensures SizeLeft(order, removed) <=
            SizeLeft(order, seq(|order|, i requires 0 <= i < |order| => MayGo(order[i], open, unremovable)))
  {
    if order != [] {
      var n := |order| - 1;
      var may := seq(|order|, i requires 0 <= i < |order| => MayGo(order[i], open, unremovable));
      ImmovableSize(order[..n], removed[..n], open, unremovable);
      assert may[..n] == seq(n, i requires 0 <= i < n => MayGo(order[..n][i], open, unremovable));
    }
  }

  lemma GetsUnderTheLimit(order: seq<CachedFile>, removed: seq<bool>, limit: nat, open: set<string>,
                          unremovable: set<string>)
    requires EvictedTo(order, removed, limit, open, unremovable)
    requires SizeLeft(order, seq(|order|, i requires 0 <= i < |order| => MayGo(order[i], open, unremovable))) <= limit
    ensures SizeLeft(order, removed) <= limit
  {
    if SizeLeft(order, removed) > limit {
      ImmovableSize(order, removed, open, unremovable);
    }
  }

  lemma {:induction false} NothingRemoved(files: seq<CachedFile>, removed: seq<bool>)
    requires |files| == |removed| && forall i :: 0 <= i < |removed| ==> !removed[i]
    ensures SizeLeft(files, removed) == TotalSize(files)
  {
    if files != [] {
      var n := |files| - 1;
      NothingRemoved(files[..n], removed[..n]);
      TotalSizeAppend(files[..n], files[n]);
      assert files[..n] + [files[n]] == files;
    }
  }
}
