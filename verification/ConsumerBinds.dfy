/** Which mounts of the host table are consumers of ours, and which devices of a
    container the host no longer resolves: parseConsumerBinds, liveMountDevices and
    strandedInMountInfo (pkg/driver/node_s3.go). */
module ConsumerBinds {
  import opened Basics
  import opened MountInfo

  const PODS := "/pods/"
  const CSI := "/volumes/kubernetes.io~csi/"
  const SUBPATHS := "/volume-subpaths/"
  const RCLONE_FS_TYPE := "fuse.rclone"

  datatype ConsumerBind = ConsumerBind(path: string, podUID: string, pvName: string, depth: nat, dev: string)

  predicate Contains(s: string, sub: string) { IndexOf(s, sub) >= 0 }

  function Built(prefix: string, segment: string, leaf: string, podUID: string, pvName: string): string {
    prefix + (podUID + segment + (pvName + "/" + leaf))
  }

  /** Where kubelet publishes a volume to a pod:
      <root>/pods/<uid>/volumes/kubernetes.io~csi/<pv>/mount. */
  function PublishPath(root: string, podUID: string, pvName: string): string {
    Built(root + PODS, CSI, "mount", podUID, pvName)
  }

  function Top(stack: seq<HostMount>): HostMount
    requires stack != []
  {
    stack[|stack| - 1]
  }

  /** strings.Cut at the first slash, asking for a given leaf behind it. */
  function CutLeaf(tail: string, leaf: string): Option<string> {
    var j := IndexOf(tail, "/");
    if j < 0 || tail[j + 1..] != leaf || tail[..j] == "" then None else Some(tail[..j])
  }

  /** strings.Cut at the first `segment`, asking for a slash-free word before it. */
  function CutWord(rest: string, segment: string, leaf: string): Option<(string, string)> {
    var i := IndexOf(rest, segment);
    if i < 0 || rest[..i] == "" || '/' in rest[..i] then None
    else
      match CutLeaf(rest[i + |segment|..], leaf)
      case None => None
      case Some(pvName) => Some((rest[..i], pvName))
  }

  function CutFrom(path: string, prefix: string, segment: string, leaf: string): Option<(string, string)> {
    if !(prefix <= path) then None else CutWord(path[|prefix|..], segment, leaf)
  }

  /** The pod and PV a path names, following the three cuts of the source. */
  function Cut(path: string, root: string): Option<(string, string)> {
    CutFrom(path, root + PODS, CSI, "mount")
  }

  /** A separator that starts with a slash is first found right after a
      slash-free word. */
  lemma FirstAfterWord(word: string, sep: string, rest: string)
    requires '/' !in word && sep != "" && sep[0] == '/'
    ensures IndexOf(word + sep + rest, sep) == |word|
  {
    var s := word + sep + rest;
    assert s[|word|..] == sep + rest;
    assert sep <= s[|word|..];
    forall k | 0 <= k < |word|
      ensures !(sep <= s[k..])
    {
      assert s[k..][0] == word[k] && word[k] in word;
    }
  }

  lemma SlashFreeBeforeSlash(s: string, j: nat)
    requires IndexOf(s, "/") == j
    ensures '/' !in s[..j]
  {
    forall k | 0 <= k < j
      ensures s[k] != '/'
    {
      assert !("/" <= s[k..]) && s[k..][0] == s[k];
    }
  }

  lemma SplitAt(s: string, sep: string, i: nat)
    requires i <= |s| && sep <= s[i..]
    ensures s == s[..i] + sep + s[i + |sep|..]
  {
    assert s == s[..i] + s[i..];
    assert s[i..] == sep + s[i..][|sep|..];
  }

  lemma CutLeafExactly(tail: string, leaf: string, pvName: string)
    ensures CutLeaf(tail, leaf) == Some(pvName) <==> Component(pvName) && tail == pvName + "/" + leaf
  {
    if Component(pvName) && tail == pvName + "/" + leaf {
      FirstAfterWord(pvName, "/", leaf);
      assert tail[..|pvName|] == pvName && tail[|pvName| + 1..] == leaf;
    }
    if CutLeaf(tail, leaf) == Some(pvName) {
      SplitAt(tail, "/", |pvName|);
      SlashFreeBeforeSlash(tail, |pvName|);
    }
  }

  lemma CutWordExactly(rest: string, segment: string, leaf: string, podUID: string, pvName: string)
    requires segment != "" && segment[0] == '/'
    ensures CutWord(rest, segment, leaf) == Some((podUID, pvName)) <==>
            Component(podUID) && Component(pvName) && rest == podUID + segment + (pvName + "/" + leaf)
  {
    var tail := pvName + "/" + leaf;
    if Component(podUID) && Component(pvName) && rest == podUID + segment + tail {
      FirstAfterWord(podUID, segment, tail);
      assert rest[..|podUID|] == podUID && rest[|podUID| + |segment|..] == tail;
      CutLeafExactly(tail, leaf, pvName);
    }
    if CutWord(rest, segment, leaf) == Some((podUID, pvName)) {
      SplitAt(rest, segment, |podUID|);
      CutLeafExactly(rest[|podUID| + |segment|..], leaf, pvName);
    }
  }

  lemma CutFromExactly(path: string, prefix: string, segment: string, leaf: string, podUID: string, pvName: string)
    requires segment != "" && segment[0] == '/'
    ensures CutFrom(path, prefix, segment, leaf) == Some((podUID, pvName)) <==>
            Component(podUID) && Component(pvName) && path == Built(prefix, segment, leaf, podUID, pvName)
  {
    var rest := podUID + segment + (pvName + "/" + leaf);
    if prefix <= path {
      CutWordExactly(path[|prefix|..], segment, leaf, podUID, pvName);
      assert path == prefix + path[|prefix|..];
      assert (prefix + rest)[|prefix|..] == rest;
    }
  }

  lemma PublishPathIs(root: string, podUID: string, pvName: string)
    ensures PublishPath(root, podUID, pvName) ==
            root + "/pods/" + podUID + "/volumes/kubernetes.io~csi/" + pvName + "/mount"
  {
  }

  /** kubelet publishes PV `pvName` to pod `podUID` at the path. */
  ghost predicate PublishedAs(path: string, root: string, podUID: string, pvName: string) {
    && Component(podUID) && Component(pvName)
    && path == root + "/pods/" + podUID + "/volumes/kubernetes.io~csi/" + pvName + "/mount"
  }

  /** The cuts succeed exactly on publish paths, and give back what built them. */
  lemma CutExactly(path: string, root: string, podUID: string, pvName: string)
    ensures Cut(path, root) == Some((podUID, pvName)) <==> PublishedAs(path, root, podUID, pvName)
  {
    PublishPathIs(root, podUID, pvName);
    CutFromExactly(path, root + PODS, CSI, "mount", podUID, pvName);
  }

  ghost predicate IsConsumerBind(stacks: map<string, seq<HostMount>>, root: string, b: ConsumerBind) {
    && b.path in stacks && stacks[b.path] != []
    && "fuse" <= stacks[b.path][|stacks[b.path]| - 1].fsType
    && PublishedAs(b.path, root, b.podUID, b.pvName)
    && b.depth == |stacks[b.path]| && b.dev == stacks[b.path][|stacks[b.path]| - 1].dev
  }

  /** The bind at a path, given what the cuts find in it. */
  function BindAt(path: string, stack: seq<HostMount>, cut: Option<(string, string)>): seq<ConsumerBind>
    requires stack != []
  {
    match cut
    case None => []
    case Some((podUID, pvName)) =>
      if "fuse" <= Top(stack).fsType then [ConsumerBind(path, podUID, pvName, |stack|, Top(stack).dev)] else []
  }

  lemma BindAtExactly(
    stacks: map<string, seq<HostMount>>, root: string, path: string, cut: Option<(string, string)>, b: ConsumerBind)
    requires path in stacks && stacks[path] != []
    requires cut == Some((b.podUID, b.pvName)) <==> PublishedAs(path, root, b.podUID, b.pvName)
    ensures b in BindAt(path, stacks[path], cut) <==> b.path == path && IsConsumerBind(stacks, root, b)
  {
  }

  /** The binds of every path but the given ones, once each. */
  ghost predicate BindsBut(
    stacks: map<string, seq<HostMount>>, root: string, paths: set<string>, out: seq<ConsumerBind>)
  {
    && (forall b :: b in out <==> IsConsumerBind(stacks, root, b) && b.path !in paths)
    && (forall i, j :: 0 <= i < j < |out| ==> out[i].path != out[j].path)
  }

  lemma BindsOfOneMore(
    stacks: map<string, seq<HostMount>>, root: string, paths: set<string>, path: string, out: seq<ConsumerBind>)
    requires path in paths && path in stacks && stacks[path] != [] && BindsBut(stacks, root, paths, out)
    ensures BindsBut(stacks, root, paths - {path}, out + BindAt(path, stacks[path], Cut(path, root)))
  {
    forall b
      ensures b in BindAt(path, stacks[path], Cut(path, root)) <==> b.path == path && IsConsumerBind(stacks, root, b)
    {
      CutExactly(path, root, b.podUID, b.pvName);
      BindAtExactly(stacks, root, path, Cut(path, root), b);
    }
  }

  method ParseConsumerBinds(stacks: map<string, seq<HostMount>>, root: string) returns (out: seq<ConsumerBind>)
    requires forall p :: p in stacks ==> stacks[p] != []
    ensures forall b :: b in out <==> IsConsumerBind(stacks, root, b)
    ensures forall i, j :: 0 <= i < j < |out| ==> out[i].path != out[j].path
  {
    out := [];
    var paths := stacks.Keys;
    while paths != {}
      invariant paths <= stacks.Keys
      invariant BindsBut(stacks, root, paths, out)
      decreases paths
    {
      var path :| path in paths;
      BindsOfOneMore(stacks, root, paths, path, out);
      out := out + BindAt(path, stacks[path], Cut(path, root));
      paths := paths - {path};
    }
  }

  // ---- stranded devices ----

  /** Topmost somewhere on the host outside subPath mounts. */
  ghost predicate Resolved(stacks: map<string, seq<HostMount>>, dev: string) {
    exists p :: p in stacks && stacks[p] != [] && !InSubPath(p) && stacks[p][|stacks[p]| - 1].dev == dev
  }

  ghost predicate InSubPath(path: string) {
    exists i :: 0 <= i <= |path| && "/volume-subpaths/" <= path[i..]
  }

  lemma ContainsExactly(path: string)
    ensures Contains(path, SUBPATHS) <==> InSubPath(path)
  {
    if Contains(path, SUBPATHS) {
      assert "/volume-subpaths/" <= path[IndexOf(path, SUBPATHS)..];
    }
  }

  method LiveMountDevices(stacks: map<string, seq<HostMount>>) returns (live: set<string>)
    requires forall p :: p in stacks ==> stacks[p] != []
    ensures forall d :: d in live <==> Resolved(stacks, d)
  {
    live := {};
    var paths := stacks.Keys;
    while paths != {}
      invariant paths <= stacks.Keys
      invariant forall d :: d in live <==>
                  exists p :: p in stacks && p !in paths && !InSubPath(p) && stacks[p][|stacks[p]| - 1].dev == d
      decreases paths
    {
      var p :| p in paths;
      ContainsExactly(p);
      if !Contains(p, SUBPATHS) {
        live := live + {Top(stacks[p]).dev};
      }
      paths := paths - {p};
    }
  }

  ghost predicate Holds(table: seq<Line>, dev: string) {
    exists i :: 0 <= i < |table| && table[i].mount == HostMount(dev, "fuse.rclone")
  }

  lemma {:induction false} StackHolds(table: seq<Line>, path: string, m: HostMount)
    ensures m in StackAt(table, path) <==> exists i :: 0 <= i < |table| && table[i] == Line(path, m)
  {
    if table != [] {
      var n := |table| - 1;
      StackHolds(table[..n], path, m);
      if i :| 0 <= i < n && table[..n][i] == Line(path, m) {
        assert table[i] == Line(path, m);
      }
      if i :| 0 <= i < |table| && table[i] == Line(path, m) {
        assert i == n || table[..n][i] == Line(path, m);
      }
    }
  }

  /** rclone serves the device somewhere outside the given paths. */
  ghost predicate ServedOutside(stacks: map<string, seq<HostMount>>, paths: set<string>, d: string) {
    exists p :: p in stacks && p !in paths && HostMount(d, RCLONE_FS_TYPE) in stacks[p]
  }

  lemma ServedOneMore(stacks: map<string, seq<HostMount>>, paths: set<string>, p: string, d: string)
    requires p in paths && p in stacks
    ensures ServedOutside(stacks, paths - {p}, d) <==>
            ServedOutside(stacks, paths, d) || HostMount(d, RCLONE_FS_TYPE) in stacks[p]
  {
  }

  lemma ServedIsHeld(stacks: map<string, seq<HostMount>>, table: seq<Line>, d: string)
    requires StacksOf(stacks, table)
    ensures Holds(table, d) <==> ServedOutside(stacks, {}, d)
  {
    var m := HostMount(d, RCLONE_FS_TYPE);
    if i :| 0 <= i < |table| && table[i].mount == m {
      StackHolds(table, table[i].path, m);
      assert table[i] == Line(table[i].path, m);
      assert table[i].path in stacks;
    }
    if p :| p in stacks && m in stacks[p] {
      StackHolds(table, p, m);
    }
  }

  method StrandedInMountInfo(mountinfo: string, live: set<string>) returns (stranded: seq<string>)
    ensures forall d :: d in stranded <==> Holds(ParsedLines(Lines(mountinfo)), d) && d !in live
  {
    var stacks := ParseMountStacks(mountinfo);
    stranded := [];
    var paths := stacks.Keys;
    while paths != {}
      invariant paths <= stacks.Keys
      invariant forall d :: d in stranded <==> d !in live && ServedOutside(stacks, paths, d)
      decreases paths
    {
      var p :| p in paths;
      ghost var before := stranded;
      for i := 0 to |stacks[p]|
        invariant forall d :: d in stranded <==>
                    d in before || (d !in live && HostMount(d, RCLONE_FS_TYPE) in stacks[p][..i])
      {
        var m := stacks[p][i];
        assert stacks[p][..i + 1] == stacks[p][..i] + [m];
        if m.fsType == RCLONE_FS_TYPE && m.dev !in live {
          stranded := stranded + [m.dev];
        }
      }
      assert stacks[p][..|stacks[p]|] == stacks[p];
      forall d
        ensures d in stranded <==> d !in live && ServedOutside(stacks, paths - {p}, d)
      {
        ServedOneMore(stacks, paths, p, d);
      }
      paths := paths - {p};
    }
    forall d
      ensures Holds(ParsedLines(Lines(mountinfo)), d) <==> ServedOutside(stacks, paths, d)
    {
      ServedIsHeld(stacks, ParsedLines(Lines(mountinfo)), d);
    }
  }

  /** Together: a container's device is reported stranded exactly when rclone
      serves it and it is topmost at no host path outside subPath mounts. */
  method StrandedDevices(hostTable: string, mountinfo: string)
    returns (host: map<string, seq<HostMount>>, stranded: seq<string>)
    ensures StacksOf(host, ParsedLines(Lines(hostTable)))
    ensures forall d :: d in stranded <==> Holds(ParsedLines(Lines(mountinfo)), d) && !Resolved(host, d)
  {
    host := ParseMountStacks(hostTable);
    var live := LiveMountDevices(host);
    stranded := StrandedInMountInfo(mountinfo, live);
  }
}
