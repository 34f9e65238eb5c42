/** RegisteredVFSNames: counting VFSes by fs name from rclone's vfs/list answer
    (pkg/rclone/syncmanager.go). rclone lists a name it serves once as "name:" and
    one it serves several times as "name:[0]", "name:[1]" and so on. */
module VfsListing {
  import opened Basics
  import opened VfsNames

  predicate ColonFree(name: string) { ':' !in name }

  function Count(counts: map<string, nat>, name: string): nat {
    if name in counts then counts[name] else 0
  }

  /** The entries that list a VFS under this name. */
  ghost function ListedAs(entries: seq<string>, name: string): set<nat> {
    set k: nat | k < |entries| && ColonFree(name) && name + ":" <= entries[k]
  }

  /** strings.Cut at the first colon finds the name an entry starts with. */
  lemma FirstColon(s: string, name: string)
    ensures ColonFree(name) && name + ":" <= s <==> IndexOf(s, ":") >= 0 && s[..IndexOf(s, ":")] == name
  {
    var i := IndexOf(s, ":");
    if ColonFree(name) && name + ":" <= s {
      assert s[|name|] == ':' && ":" <= s[|name|..];
      assert forall j :: 0 <= j < |name| ==> s[j] == name[j] && name[j] in name;
      assert forall j :: 0 <= j < |name| ==> !(":" <= s[j..]);
    } else if i >= 0 && s[..i] == name {
      forall j | 0 <= j < |name|
        ensures name[j] != ':'
      {
        assert !(":" <= s[j..]);
      }
    }
  }

  lemma OneMore(entries: seq<string>, i: nat, name: string)
    requires i < |entries|
    ensures |ListedAs(entries[..i + 1], name)| ==
            |ListedAs(entries[..i], name)| + if ColonFree(name) && name + ":" <= entries[i] then 1 else 0
  {
    var less, more := ListedAs(entries[..i], name), ListedAs(entries[..i + 1], name);
    assert forall k: nat :: k < i ==> entries[..i + 1][k] == entries[..i][k];
    if ColonFree(name) && name + ":" <= entries[i] {
      assert more == less + {i};
    } else {
      assert more == less;
    }
  }

  /** Counts an answered listing: each name as often as it is listed; entries
      without a colon count for nothing. */
  method RegisteredVFSNames(entries: seq<string>) returns (counts: map<string, nat>)
    ensures forall name :: Count(counts, name) == |ListedAs(entries, name)|
  {
    counts := map[];
    assert forall name :: ListedAs(entries[..0], name) == {};
    for i := 0 to |entries|
      invariant forall name :: Count(counts, name) == |ListedAs(entries[..i], name)|
    {
      ghost var before := counts;
      var colon := IndexOf(entries[i], ":");
      if colon >= 0 {
        var name := entries[i][..colon];
        counts := counts[name := Count(counts, name) + 1];
      }
      forall name
        ensures Count(counts, name) == |ListedAs(entries[..i + 1], name)|
      {
        FirstColon(entries[i], name);
        OneMore(entries, i, name);
      }
    }
    assert entries[..|entries|] == entries;
  }

  // ---- what rclone prints ----

  /** The entry of the k-th VFS in rclone's table. */
  function Printed(names: seq<string>, k: nat): string
    requires k < |names|
  {
    names[k] + ":" + if multiset(names)[names[k]] == 1 then "" else "[" + Decimal(multiset(names[..k])[names[k]]) + "]"
  }

  function Listing(names: seq<string>): (entries: seq<string>)
    ensures Heads(entries, names)
  {
    seq(|names|, k requires 0 <= k < |names| => Printed(names, k))
  }

  ghost predicate Heads(entries: seq<string>, names: seq<string>) {
    |entries| == |names| && forall k :: 0 <= k < |names| ==> names[k] + ":" <= entries[k]
  }

  lemma {:induction false} HeadsCount(entries: seq<string>, names: seq<string>, name: string)
    requires Heads(entries, names) && (forall n :: n in names ==> ColonFree(n))
    ensures |ListedAs(entries, name)| == multiset(names)[name]
  {
    if names == [] {
      assert ListedAs(entries, name) == {};
    } else {
      var i := |names| - 1;
      HeadsCount(entries[..i], names[..i], name);
      OneMore(entries, i, name);
      assert entries[..i + 1] == entries && names == names[..i] + [names[i]];
      FirstColon(entries[i], name);
      FirstColon(entries[i], names[i]);
    }
  }

  /** Counting what rclone prints gives its table back: each fs name as often as
      it has a VFS, whatever the order and however many share a name. */
  method CountsBack(names: seq<string>) returns (counts: map<string, nat>)
    requires forall n :: n in names ==> ColonFree(n)
    ensures forall name :: Count(counts, name) == multiset(names)[name]
  {
    counts := RegisteredVFSNames(Listing(names));
    forall name
      ensures |ListedAs(Listing(names), name)| == multiset(names)[name]
    {
      HeadsCount(Listing(names), names, name);
    }
  }
}
