/** The mountinfo parser: parseMountStacks, flattenMountStacks and
    unescapeMountField (pkg/rclone/mounts.go), against the format of section 3.5
    of the Linux kernel's Documentation/filesystems/proc.rst. */
module MountInfo {
  import opened Basics

  /** One entry of the mount table. */
  datatype HostMount = HostMount(dev: string, fsType: string)

  // ---- strings.Split and strings.Fields ----

  /** unicode.IsSpace. */
  predicate IsSpace(c: char) {
    || c in {'\t', '\n', '\U{0B}', '\U{0C}', '\r', ' ', '\U{85}', '\U{A0}', '\U{1680}'}
    || '\U{2000}' <= c <= '\U{200A}'
    || c in {'\U{2028}', '\U{2029}', '\U{202F}', '\U{205F}', '\U{3000}'}
  }

  /** Position of the first character for which the test differs from `space`. */
  function Scan(s: string, space: bool): (k: nat)
    ensures k <= |s| && (forall i :: 0 <= i < k ==> IsSpace(s[i]) == space)
    ensures k < |s| ==> IsSpace(s[k]) != space
  {
    if s != "" && IsSpace(s[0]) == space then 1 + Scan(s[1..], space) else 0
  }

  function Fields(s: string): seq<string>
    decreases |s|
  {
    var t := s[Scan(s, true)..];
    if t == "" then []
    else
      var k := Scan(t, false);
      [t[..k]] + Fields(t[k..])
  }

  function FindChar(s: string, c: char): (k: nat)
    ensures k <= |s| && (forall i :: 0 <= i < k ==> s[i] != c) && (k < |s| ==> s[k] == c)
  {
    if s != "" && s[0] != c then 1 + FindChar(s[1..], c) else 0
  }

  /** strings.Split(s, "\n"). */
  function Lines(s: string): seq<string>
    decreases |s|
  {
    var k := FindChar(s, '\n');
    if k == |s| then [s] else [s[..k]] + Lines(s[k + 1..])
  }

  function JoinLines(lines: seq<string>): string {
    if lines == [] then "" else if |lines| == 1 then lines[0] else lines[0] + "\n" + JoinLines(lines[1..])
  }

  /** The lines are the only way to cut the text at its newlines. */
  lemma {:induction false} LinesExactly(s: string)
    ensures Lines(s) != [] && JoinLines(Lines(s)) == s && forall l :: l in Lines(s) ==> '\n' !in l
    decreases |s|
  {
    var k := FindChar(s, '\n');
    if k < |s| {
      LinesExactly(s[k + 1..]);
      assert Lines(s)[1..] == Lines(s[k + 1..]);
      assert s == s[..k] + "\n" + s[k + 1..];
    }
  }

  /** Scanning stops where the test first changes. */
  lemma ScanStops(s: string, k: nat, space: bool)
    requires k <= |s| && (forall i :: 0 <= i < k ==> IsSpace(s[i]) == space) && (k < |s| ==> IsSpace(s[k]) != space)
    ensures Scan(s, space) == k
  {
    if k > 0 {
      assert s[1..][..k - 1] == s[1..k];
      ScanStops(s[1..], k - 1, space);
    }
  }

  /** The fields, read off any decomposition: behind leading space comes the longest
      word, and then the fields of the rest; nothing but space has none. */
  lemma FieldsExactly(space: string, word: string, rest: string)
    requires forall i :: 0 <= i < |space| ==> IsSpace(space[i])
    requires word != "" && (forall i :: 0 <= i < |word| ==> !IsSpace(word[i])) && (rest != "" ==> IsSpace(rest[0]))
    ensures Fields(space) == [] && Fields(space + (word + rest)) == [word] + Fields(rest)
  {
    var s, t := space + (word + rest), word + rest;
    ScanStops(space, |space|, true);
    ScanStops(s, |space|, true);
    ScanStops(t, |word|, false);
    assert s[|space|..] == t && t[..|word|] == word && t[|word|..] == rest;
  }

  // ---- octal escapes ----

  function Unescape(s: string): string
    decreases |s|
  {
    if s == "" then ""
    else if |s| >= 4 && s[..4] == "\\040" then " " + Unescape(s[4..])
    else if |s| >= 4 && s[..4] == "\\011" then "\t" + Unescape(s[4..])
    else if |s| >= 4 && s[..4] == "\\012" then "\n" + Unescape(s[4..])
    else if |s| >= 4 && s[..4] == "\\134" then "\\" + Unescape(s[4..])
    else [s[0]] + Unescape(s[1..])
  }

  function UnescapeMountField(s: string): string {
    if '\\' !in s then s else Unescape(s)
  }

  /** How the kernel prints a path in mountinfo. */
  function EscapeChar(c: char): string {
    if c == ' ' then "\\040"
    else if c == '\t' then "\\011"
    else if c == '\n' then "\\012"
    else if c == '\\' then "\\134"
    else [c]
  }

  function Escape(s: string): string {
    if s == "" then "" else EscapeChar(s[0]) + Escape(s[1..])
  }

  lemma {:induction false} UnescapePlain(s: string)
    requires '\\' !in s
    ensures Unescape(s) == s
  {
    if s != "" {
      assert s[0] in s;
      UnescapePlain(s[1..]);
      assert s == [s[0]] + s[1..];
    }
  }

  lemma {:induction false} UnescapeEscape(s: string)
    ensures Unescape(Escape(s)) == s
  {
    if s != "" {
      var head, tail := EscapeChar(s[0]), Escape(s[1..]);
      UnescapeEscape(s[1..]);
      assert (head + tail)[|head|..] == tail;
      assert s == [s[0]] + s[1..];
      if |head| == 4 {
        assert (head + tail)[..4] == head;
      } else {
        assert (head + tail)[0] == s[0];
        if |head + tail| >= 4 { assert (head + tail)[..4][0] == s[0]; }
      }
    }
  }

  /** Decoding undoes the kernel's escaping, for every path. */
  lemma EscapesRoundTrip(s: string)
    ensures UnescapeMountField(Escape(s)) == s
  {
    UnescapeEscape(s);
    if '\\' !in Escape(s) { UnescapePlain(Escape(s)); }
  }

  /** Whitespace the kernel escapes; a path with any other cannot be told apart
      from two fields. */
  predicate PrintablePath(s: string) {
    s != "" && forall c | c in s :: IsSpace(c) ==> c in {' ', '\t', '\n'}
  }

  predicate Token(s: string) {
    s != "" && forall c | c in s :: !IsSpace(c)
  }

  lemma {:induction false} EscapeIsToken(s: string)
    requires forall c | c in s :: IsSpace(c) ==> c in {' ', '\t', '\n'}
    ensures (forall c | c in Escape(s) :: !IsSpace(c)) && (s != "" ==> Escape(s) != "")
  {
    if s != "" {
      assert s[0] in s;
      EscapeIsToken(s[1..]);
    }
  }

  // ---- the parser ----

  datatype Line = Line(path: string, mount: HostMount)

  /** Is `i` where the fields have the " - " separator? */
  predicate SeparatorAt(fields: seq<string>, i: int) {
    5 <= i < |fields| - 1 && fields[i] == "-" && forall j :: 5 <= j < i ==> fields[j] != "-"
  }

  ghost predicate HasSeparator(fields: seq<string>) {
    exists i :: SeparatorAt(fields, i)
  }

  /** What one line contributes: nothing, or a mount at a path. */
  ghost function ParsedLine(line: string): Option<Line> {
    var fields := Fields(line);
    if |fields| >= 5 && HasSeparator(fields) then
      var i :| SeparatorAt(fields, i);
      Some(Line(UnescapeMountField(fields[4]), HostMount(fields[2], fields[i + 1])))
    else None
  }

  ghost function ParsedLines(lines: seq<string>): seq<Line> {
    if lines == [] then []
    else
      var last := ParsedLine(lines[|lines| - 1]);
      ParsedLines(lines[..|lines| - 1]) + if last.Some? then [last.value] else []
  }

  /** The mounts at one path, in table order. */
  ghost function StackAt(table: seq<Line>, path: string): seq<HostMount> {
    if table == [] then []
    else
      var last := table[|table| - 1];
      StackAt(table[..|table| - 1], path) + if last.path == path then [last.mount] else []
  }

  ghost predicate StacksOf(out: map<string, seq<HostMount>>, table: seq<Line>) {
    && (forall p :: p in out <==> StackAt(table, p) != [])
    && (forall p :: p in out ==> out[p] == StackAt(table, p))
  }

  lemma AddLine(out: map<string, seq<HostMount>>, table: seq<Line>, line: Line)
    requires StacksOf(out, table)
    ensures StacksOf(out[line.path := (if line.path in out then out[line.path] else []) + [line.mount]], table + [line])
  {
    assert (table + [line])[..|table|] == table;
  }

  lemma AddNothing(lines: seq<string>, n: nat)
    requires n < |lines| && ParsedLine(lines[n]).None?
    ensures ParsedLines(lines[..n + 1]) == ParsedLines(lines[..n])
  {
    assert lines[..n + 1][..n] == lines[..n];
  }

  method ParseMountStacks(data: string) returns (out: map<string, seq<HostMount>>)
    ensures StacksOf(out, ParsedLines(Lines(data)))
  {
    out := map[];
    var lines := Lines(data);
    for n := 0 to |lines|
      invariant StacksOf(out, ParsedLines(lines[..n]))
    {
      var fields := Fields(lines[n]);
      if |fields| < 5 {
        AddNothing(lines, n);
        continue;
      }
      var mountPoint := UnescapeMountField(fields[4]);
      var i := 5;
      while i < |fields| - 1 && fields[i] != "-"
        invariant 5 <= i
        invariant forall j :: 5 <= j < i && j < |fields| ==> fields[j] != "-"
      {
        i := i + 1;
      }
      if i < |fields| - 1 {
        assert SeparatorAt(fields, i);
        ghost var before := ParsedLines(lines[..n]);
        ghost var line := Line(mountPoint, HostMount(fields[2], fields[i + 1]));
        assert ParsedLines(lines[..n + 1]) == before + [line] by {
          assert lines[..n + 1][..n] == lines[..n];
        }
        AddLine(out, before, line);
        var stack := if mountPoint in out then out[mountPoint] else [];
        out := out[mountPoint := stack + [HostMount(fields[2], fields[i + 1])]];
      } else {
        assert !HasSeparator(fields);
        AddNothing(lines, n);
      }
    }
    assert lines[..|lines|] == lines;
  }

  /** flattenMountStacks: the filesystem type of the topmost mount at each path. */
  ghost predicate TopOf(flat: map<string, string>, stacks: map<string, seq<HostMount>>) {
    && flat.Keys == stacks.Keys
    && forall p :: p in stacks ==> stacks[p] != [] && flat[p] == stacks[p][|stacks[p]| - 1].fsType
  }

  method FlattenMountStacks(stacks: map<string, seq<HostMount>>) returns (out: map<string, string>)
    requires forall p :: p in stacks ==> stacks[p] != []
    ensures TopOf(out, stacks)
  {
    out := map[];
    var paths := stacks.Keys;
    while paths != {}
      invariant paths <= stacks.Keys
      invariant out.Keys == stacks.Keys - paths
      invariant forall p :: p in out ==> out[p] == stacks[p][|stacks[p]| - 1].fsType
      decreases paths
    {
      var p :| p in paths;
      out := out[p := stacks[p][|stacks[p]| - 1].fsType];
      paths := paths - {p};
    }
  }

  // ---- printing a table, and reading it back ----

  datatype Mount = Mount(id: string, parent: string, dev: string, root: string, mountPoint: string, options: string,
                         optional: seq<string>, fsType: string, source: string, superOptions: string)

  predicate Printable(m: Mount) {
    && Token(m.id) && Token(m.parent) && Token(m.dev) && PrintablePath(m.root) && PrintablePath(m.mountPoint)
    && Token(m.options) && m.options != "-"
    && (forall o | o in m.optional :: Token(o) && o != "-")
    && Token(m.fsType) && Token(m.source) && Token(m.superOptions)
  }

  function Tokens(m: Mount): seq<string> {
    [m.id, m.parent, m.dev, Escape(m.root), Escape(m.mountPoint), m.options] + m.optional
    + ["-", m.fsType, m.source, m.superOptions]
  }

  function Join(tokens: seq<string>): string {
    if tokens == [] then "" else if |tokens| == 1 then tokens[0] else tokens[0] + " " + Join(tokens[1..])
  }

  function Print(mounts: seq<Mount>): string {
    if mounts == [] then "" else Join(Tokens(mounts[0])) + "\n" + Print(mounts[1..])
  }

  function TableOf(mounts: seq<Mount>): seq<Line> {
    seq(|mounts|, i requires 0 <= i < |mounts| =>
          Line(mounts[i].mountPoint, HostMount(mounts[i].dev, mounts[i].fsType)))
  }

  lemma {:induction false} FieldsOfJoin(tokens: seq<string>)
    requires forall t | t in tokens :: Token(t)
    ensures Fields(Join(tokens)) == tokens
    ensures tokens != [] ==> Join(tokens) != "" && !IsSpace(Join(tokens)[0])
  {
    if tokens == [] {
    } else {
      var t := tokens[0];
      assert Token(t) && t[0] in t;
      var rest := tokens[1..];
      FieldsOfJoin(rest);
      var s := Join(tokens);
      var after := if rest == [] then "" else " " + Join(rest);
      assert s == t + after;
      assert Scan(s, true) == 0 && s[0..] == s;
      assert Scan(s, false) == |t| by {
        assert forall i :: 0 <= i < |t| ==> s[i] == t[i] && t[i] in t;
        if rest != [] { assert s[|t|] == ' '; }
      }
      assert s[..|t|] == t && s[|t|..] == after;
      if rest != [] {
        FieldsAfterSpace(Join(rest));
      } else {
        assert Fields("") == [];
      }
      assert tokens == [t] + rest;
    }
  }

  lemma FieldsAfterSpace(s: string)
    requires s != "" && !IsSpace(s[0])
    ensures Fields(" " + s) == Fields(s)
  {
    assert (" " + s)[1..] == s && s[0..] == s;
    assert Scan(" " + s, true) == 1 && Scan(s, true) == 0;
  }

  lemma {:induction false} NoNewlineInJoin(tokens: seq<string>)
    requires forall t | t in tokens :: Token(t)
    ensures '\n' !in Join(tokens)
  {
    if tokens != [] {
      assert Token(tokens[0]);
      assert forall t | t in tokens[1..] :: t in tokens;
      NoNewlineInJoin(tokens[1..]);
    }
  }

  lemma LinesOfLine(line: string, rest: string)
    requires '\n' !in line
    ensures Lines(line + "\n" + rest) == [line] + Lines(rest)
  {
    var s := line + "\n" + rest;
    assert FindChar(s, '\n') == |line| by {
      assert forall i :: 0 <= i < |line| ==> s[i] == line[i] && line[i] in line;
      assert s[|line|] == '\n';
    }
    assert s[..|line|] == line && s[|line| + 1..] == rest;
  }

  lemma TokensAreTokens(m: Mount)
    requires Printable(m)
    ensures forall t | t in Tokens(m) :: Token(t)
  {
    EscapeIsToken(m.root);
    EscapeIsToken(m.mountPoint);
  }

  lemma SeparatorOfTokens(m: Mount)
    requires Printable(m)
    ensures forall i :: SeparatorAt(Tokens(m), i) <==> i == 6 + |m.optional|
    ensures Tokens(m)[7 + |m.optional|] == m.fsType
  {
    var tokens, dash := Tokens(m), 6 + |m.optional|;
    assert tokens[dash] == "-" && |tokens| == dash + 4;
    forall j | 5 <= j < dash
      ensures tokens[j] != "-"
    {
      if j >= 6 { assert tokens[j] == m.optional[j - 6] && m.optional[j - 6] in m.optional; }
    }
  }

  lemma FieldsOfPrinted(m: Mount)
    requires Printable(m)
    ensures Fields(Join(Tokens(m))) == Tokens(m)
  {
    TokensAreTokens(m);
    FieldsOfJoin(Tokens(m));
  }

  /** One printed mount parses to its path, device and filesystem type. */
  lemma LineRoundTrip(m: Mount)
    requires Printable(m)
    ensures ParsedLine(Join(Tokens(m))) == Some(Line(m.mountPoint, HostMount(m.dev, m.fsType)))
  {
    FieldsOfPrinted(m);
    EscapesRoundTrip(m.mountPoint);
    SeparatorOfTokens(m);
    assert SeparatorAt(Tokens(m), 6 + |m.optional|);
  }

  lemma {:induction false} ParsedLinesAppend(a: seq<string>, b: seq<string>)
    ensures ParsedLines(a + b) == ParsedLines(a) + ParsedLines(b)
    decreases |b|
  {
    if b == [] {
      assert a + b == a;
    } else {
      var n := |b| - 1;
      assert (a + b)[..|a + b| - 1] == a + b[..n];
      ParsedLinesAppend(a, b[..n]);
    }
  }

  lemma FirstLineParses(line: string, entry: Line, rest: string)
    requires '\n' !in line && ParsedLine(line) == Some(entry)
    ensures ParsedLines(Lines(line + "\n" + rest)) == [entry] + ParsedLines(Lines(rest))
  {
    LinesOfLine(line, rest);
    ParsedLinesAppend([line], Lines(rest));
    assert [line][..0] == [];
  }

  lemma PrintedLine(m: Mount, rest: string)
    requires Printable(m)
    ensures ParsedLines(Lines(Join(Tokens(m)) + "\n" + rest)) ==
            [Line(m.mountPoint, HostMount(m.dev, m.fsType))] + ParsedLines(Lines(rest))
  {
    TokensAreTokens(m);
    NoNewlineInJoin(Tokens(m));
    LineRoundTrip(m);
    FirstLineParses(Join(Tokens(m)), Line(m.mountPoint, HostMount(m.dev, m.fsType)), rest);
  }

  lemma NothingPrinted()
    ensures ParsedLines(Lines("")) == []
  {
    assert Lines("") == [""] && Fields("") == [];
    assert [""][..0] == [];
  }

  lemma TableOfFirst(mounts: seq<Mount>)
    requires mounts != []
    ensures TableOf(mounts) ==
            [Line(mounts[0].mountPoint, HostMount(mounts[0].dev, mounts[0].fsType))] + TableOf(mounts[1..])
  {
  }

  /** Parsing a printed table gives every mount back, in order. */
  lemma {:induction false} TableRoundTrip(mounts: seq<Mount>)
    requires forall m | m in mounts :: Printable(m)
    ensures ParsedLines(Lines(Print(mounts))) == TableOf(mounts)
  {
    if mounts == [] {
      NothingPrinted();
    } else {
      var rest := mounts[1..];
      assert Printable(mounts[0]);
      TableRoundTrip(rest);
      PrintedLine(mounts[0], Print(rest));
      TableOfFirst(mounts);
      assert Print(mounts) == Join(Tokens(mounts[0])) + "\n" + Print(rest);
    }
  }

  /** End to end: the parser returns, for every path of the table, its full stack
      of mounts in order, and no other path. */
  method ParsePrinted(mounts: seq<Mount>) returns (out: map<string, seq<HostMount>>)
    requires forall m | m in mounts :: Printable(m)
    ensures StacksOf(out, TableOf(mounts))
    ensures DepthSum(out.Keys, TableOf(mounts)) == |mounts|
  {
    TableRoundTrip(mounts);
    out := ParseMountStacks(Print(mounts));
    forall i | 0 <= i < |TableOf(mounts)|
      ensures TableOf(mounts)[i].path in out.Keys
    {
      PathHasStack(TableOf(mounts), i);
    }
    DepthsSumUp(out.Keys, TableOf(mounts));
  }

  // ---- no mount is lost or counted twice ----

  ghost function Pick(s: set<string>): string
    requires s != {}
  {
    var p :| p in s; p
  }

  ghost function DepthSum(paths: set<string>, table: seq<Line>): nat {
    if paths == {} then 0 else |StackAt(table, Pick(paths))| + DepthSum(paths - {Pick(paths)}, table)
  }

  lemma {:induction false} PathHasStack(table: seq<Line>, i: nat)
    requires i < |table|
    ensures StackAt(table, table[i].path) != []
  {
    var n := |table| - 1;
    if i < n {
      PathHasStack(table[..n], i);
    }
  }

  lemma {:induction false} DepthSumAppend(paths: set<string>, table: seq<Line>, line: Line)
    ensures DepthSum(paths, table + [line]) == DepthSum(paths, table) + if line.path in paths then 1 else 0
  {
    if paths != {} {
      assert (table + [line])[..|table|] == table;
      DepthSumAppend(paths - {Pick(paths)}, table, line);
    }
  }

  lemma {:induction false} EmptyTable(paths: set<string>)
    ensures DepthSum(paths, []) == 0
  {
    if paths != {} {
      EmptyTable(paths - {Pick(paths)});
    }
  }

  /** The depths of all stacks add up to the number of lines. */
  lemma {:induction false} DepthsSumUp(paths: set<string>, table: seq<Line>)
    requires forall i :: 0 <= i < |table| ==> table[i].path in paths
    ensures DepthSum(paths, table) == |table|
    decreases |table|
  {
    if table == [] {
      EmptyTable(paths);
    } else {
      var n := |table| - 1;
      DepthsSumUp(paths, table[..n]);
      DepthSumAppend(paths, table[..n], table[n]);
      assert table[..n] + [table[n]] == table;
    }
  }
}
