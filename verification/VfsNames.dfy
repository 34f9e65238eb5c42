/** The VFS name codec: a volume's rclone name at a given generation, and the two
    functions that read a name back (pkg/rclone/syncmanager.go). */
module VfsNames {
  import opened Basics

  /** Go's int is 64 bits wide on every platform the driver is built for. */
  const MAX_INT := 0x7fff_ffff_ffff_ffff

  /** How often one mount may move on to a fresh generation. */
  const MAX_VFS_GENERATIONS := 16

  // ---- fmt's %d and strconv.Atoi ----

  predicate IsDigit(c: char) { '0' <= c <= '9' }

  function DigitOf(d: nat): (c: char)
    requires d < 10
    ensures IsDigit(c) && DigitValue(c) == d
  {
    '0' + d as char
  }

  function DigitValue(c: char): (d: nat)
    requires IsDigit(c)
    ensures d < 10
  {
    (c - '0') as int
  }

  /** Decimal notation, as printed by %d. */
  function Decimal(n: nat): string {
    if n < 10 then [DigitOf(n)] else Decimal(n / 10) + [DigitOf(n % 10)]
  }

  predicate AllDigits(s: string) { forall c | c in s :: IsDigit(c) }

  function ValueOf(s: string): nat
    requires AllDigits(s)
  {
    if s == "" then 0 else 10 * ValueOf(s[..|s| - 1]) + DigitValue(s[|s| - 1])
  }

  /** strconv.Atoi: an optional sign, at least one digit and nothing else, in range. */
  function Atoi(s: string): Option<int> {
    var signed := s != "" && (s[0] == '-' || s[0] == '+');
    var digits := if signed then s[1..] else s;
    if digits == "" || !AllDigits(digits) then None
    else
      var n := if signed && s[0] == '-' then 0 - ValueOf(digits) else ValueOf(digits);
      if -MAX_INT - 1 <= n <= MAX_INT then Some(n) else None
  }

  lemma {:induction false} DecimalRoundTrip(n: nat)
    ensures Decimal(n) != "" && AllDigits(Decimal(n)) && ValueOf(Decimal(n)) == n
  {
    if n >= 10 {
      DecimalRoundTrip(n / 10);
      assert Decimal(n)[..|Decimal(n)| - 1] == Decimal(n / 10);
    } else {
      assert Decimal(n)[..0] == "";
    }
  }

  /** Printing then parsing a number gives it back exactly when it fits in an int. */
  lemma AtoiDecimal(n: nat)
    ensures Atoi(Decimal(n)) == if n <= MAX_INT then Some(n) else None
  {
    DecimalRoundTrip(n);
    assert Decimal(n)[0] in Decimal(n);
  }

  // ---- the names ----

  const MARK := ".g"

  /** vfsNamesFor's first and third results: the cache directory name and the
      rclone fs name are the same string. */
  function VfsName(volumeID: string, generation: nat): string {
    if generation > 0 then volumeID + MARK + Decimal(generation) else volumeID
  }

  /** vfsNamesFor's second result. */
  function S3ConfigName(volumeID: string, generation: nat): string {
    VfsName(volumeID, generation) + "-s3"
  }

  /** strings.LastIndex(s, ".g"). */
  function LastMark(s: string): int {
    LastMarkBefore(s, |s|)
  }

  function LastMarkBefore(s: string, end: nat): (i: int)
    requires end <= |s|
    ensures -1 <= i && (i >= 0 ==> MarkAt(s, i) && i < end)
    ensures forall j :: i < j < end ==> !MarkAt(s, j)
  {
    if end == 0 then -1
    else if MarkAt(s, end - 1) then end - 1
    else LastMarkBefore(s, end - 1)
  }

  predicate MarkAt(s: string, i: int) {
    0 <= i && i + 2 <= |s| && s[i] == '.' && s[i + 1] == 'g'
  }

  function VolumeIdOf(vfsName: string): string {
    var i := LastMark(vfsName);
    if i <= 0 then vfsName
    else if Atoi(vfsName[i + 2..]).None? then vfsName
    else vfsName[..i]
  }

  function GenerationOf(volumeID: string, vfsName: string): nat {
    if vfsName == "" || vfsName == volumeID then 0
    else if !(volumeID + MARK <= vfsName) then 0
    else
      var n := Atoi(vfsName[|volumeID| + 2..]);
      if n.None? || n.value < 0 then 0 else n.value
  }

  // ---- what the codec promises ----

  /** Said without LastMark: the name ends in ".g" and something Atoi accepts,
      with at least one character in front. */
  ghost predicate HasGenerationSuffix(s: string) {
    exists i :: 0 < i && MarkAt(s, i) && Atoi(s[i + 2..]).Some?
  }

  /** Volume handles the codec can tell apart: PV names carry no generation suffix. */
  ghost predicate PlainVolume(volumeID: string) {
    volumeID != "" && !HasGenerationSuffix(volumeID)
  }

  lemma NumbersAreDigitsAfterTheSign(s: string, k: nat)
    requires Atoi(s).Some? && k < |s|
    ensures IsDigit(s[k]) || k == 0
  {
    if k > 0 && (s[0] == '-' || s[0] == '+') {
      assert s[1..][k - 1] in s[1..];
    }
  }

  /** A mark can never sit inside what Atoi accepts, so only the last one can
      start a generation suffix. */
  lemma NumberHoldsNoMark(s: string, i: int)
    requires MarkAt(s, i) && Atoi(s[i + 2..]).Some?
    ensures LastMark(s) == i
  {
    forall j | i < j < |s|
      ensures !MarkAt(s, j)
    {
      if i + 2 <= j && j + 1 < |s| {
        NumbersAreDigitsAfterTheSign(s[i + 2..], j - i - 1);
      }
    }
  }

  lemma StrippedHasSuffix(vfsName: string)
    requires VolumeIdOf(vfsName) != vfsName
    ensures HasGenerationSuffix(vfsName)
  {
    var i := LastMark(vfsName);
    assert 0 < i && MarkAt(vfsName, i) && Atoi(vfsName[i + 2..]).Some?;
  }

  lemma SuffixIsStripped(vfsName: string, i: int)
    requires 0 < i && MarkAt(vfsName, i) && Atoi(vfsName[i + 2..]).Some?
    ensures VolumeIdOf(vfsName) == vfsName[..i] && |vfsName[..i]| < |vfsName|
  {
    NumberHoldsNoMark(vfsName, i);
  }

  /** VolumeIdOf strips something exactly when there is a generation suffix. */
  lemma StripsExactlySuffixes(vfsName: string)
    ensures VolumeIdOf(vfsName) != vfsName <==> HasGenerationSuffix(vfsName)
  {
    if HasGenerationSuffix(vfsName) {
      var i :| 0 < i && MarkAt(vfsName, i) && Atoi(vfsName[i + 2..]).Some?;
      SuffixIsStripped(vfsName, i);
    } else if VolumeIdOf(vfsName) != vfsName {
      StrippedHasSuffix(vfsName);
    }
  }

  /** A name of a positive generation carries its suffix where it was put. */
  lemma SuffixOfName(volumeID: string, generation: nat)
    requires 0 < generation <= MAX_INT
    ensures var name := VfsName(volumeID, generation);
            MarkAt(name, |volumeID|) && Atoi(name[|volumeID| + 2..]) == Some(generation)
            && LastMark(name) == |volumeID| && name[..|volumeID|] == volumeID
  {
    var name := VfsName(volumeID, generation);
    assert name[|volumeID| + 2..] == Decimal(generation);
    assert name[|volumeID|] == MARK[0] && name[|volumeID| + 1] == MARK[1];
    AtoiDecimal(generation);
    NumberHoldsNoMark(name, |volumeID|);
  }

  /** generationOfVFSName inverts vfsNamesFor for every volume and generation. */
  lemma GenerationRoundTrip(volumeID: string, generation: nat)
    requires generation <= MAX_INT
    ensures GenerationOf(volumeID, VfsName(volumeID, generation)) == generation
  {
    if generation > 0 {
      SuffixOfName(volumeID, generation);
      assert volumeID + MARK <= VfsName(volumeID, generation);
    }
  }

  /** volumeIDOfVFSName inverts vfsNamesFor exactly when the volume ID is
      non-empty (later generations) or carries no suffix of its own (generation 0). */
  lemma VolumeIdRoundTrip(volumeID: string, generation: nat)
    requires generation <= MAX_INT
    ensures VolumeIdOf(VfsName(volumeID, generation)) == volumeID <==>
            if generation == 0 then !HasGenerationSuffix(volumeID) else volumeID != ""
  {
    if generation == 0 {
      StripsExactlySuffixes(volumeID);
    } else {
      SuffixOfName(volumeID, generation);
    }
  }

  /** Two (volume, generation) pairs share a name exactly when they are the same
      pair, or one is generation 0 of a volume called like the other's name. */
  lemma NamesCollideExactly(v: string, g: nat, v': string, g': nat)
    requires g <= MAX_INT && g' <= MAX_INT
    ensures VfsName(v, g) == VfsName(v', g') <==>
            || (v == v' && g == g')
            || (g == 0 && g' > 0 && v == v' + MARK + Decimal(g'))
            || (g' == 0 && g > 0 && v' == v + MARK + Decimal(g))
  {
    if g > 0 && g' > 0 {
      SuffixOfName(v, g);
      SuffixOfName(v', g');
    }
    if v == v' && (g == 0) != (g' == 0) {
      assert |VfsName(v, g)| != |VfsName(v', g')|;
    }
  }

  /** The smallest such pair: two different volumes, one name. */
  lemma TwoVolumesOneName()
    ensures VfsName("a", 1) == VfsName("a.g1", 0) && PlainVolume("a") && !PlainVolume("a.g1")
  {
    assert Decimal(1) == "1" && "a" + MARK + "1" == "a.g1";
    assert MarkAt("a.g1", 1) && "a.g1"[3..] == "1";
    AtoiDecimal(1);
  }

  /** Across plain volume IDs the codec is injective. */
  lemma NamesInjective(v: string, g: nat, v': string, g': nat)
    requires PlainVolume(v) && PlainVolume(v') && g <= MAX_INT && g' <= MAX_INT
    requires VfsName(v, g) == VfsName(v', g')
    ensures v == v' && g == g'
  {
    VolumeIdRoundTrip(v, g);
    VolumeIdRoundTrip(v', g');
    GenerationRoundTrip(v, g);
    GenerationRoundTrip(v', g');
  }

  /** The three names of a volume at a generation, spelled out. */
  lemma NamesAre(volumeID: string, generation: nat)
    ensures VfsName(volumeID, 0) == volumeID && S3ConfigName(volumeID, 0) == volumeID + "-s3"
    ensures generation > 0 ==>
              && VfsName(volumeID, generation) == volumeID + ".g" + Decimal(generation)
              && S3ConfigName(volumeID, generation) == volumeID + ".g" + Decimal(generation) + "-s3"
  {
  }

  /** Two S3 config names are equal exactly when the VFS names are, so across plain
      volume IDs each determines volume and generation too. */
  lemma S3NamesFollow(v: string, g: nat, v': string, g': nat)
    ensures S3ConfigName(v, g) == S3ConfigName(v', g') <==> VfsName(v, g) == VfsName(v', g')
  {
    var s, s' := S3ConfigName(v, g), S3ConfigName(v', g');
    if s == s' {
      assert VfsName(v, g) == s[..|s| - 3] && VfsName(v', g') == s'[..|s'| - 3];
    }
  }

  /** generationOfVFSName reads a positive number exactly behind the volume's own
      mark; any other name is generation 0. */
  lemma GenerationReadExactly(volumeID: string, vfsName: string, n: nat)
    requires n > 0
    ensures GenerationOf(volumeID, vfsName) == n <==>
            exists s :: vfsName == volumeID + ".g" + s && Atoi(s) == Some(n)
  {
    var k := |volumeID| + 2;
    if volumeID + MARK <= vfsName {
      assert vfsName == volumeID + ".g" + vfsName[k..];
    }
    if s :| vfsName == volumeID + ".g" + s && Atoi(s) == Some(n) {
      assert vfsName[k..] == s && volumeID + MARK <= vfsName && |vfsName| > |volumeID|;
    }
  }

  /** strconv.Atoi of a signed decimal, and of anything with another character. */
  lemma AtoiSigned(sign: char, n: nat)
    requires sign == '+' || sign == '-'
    ensures var m: int := if sign == '-' then 0 - n else n;
            Atoi([sign] + Decimal(n)) == if -MAX_INT - 1 <= m <= MAX_INT then Some(m) else None
  {
    DecimalRoundTrip(n);
    assert ([sign] + Decimal(n))[1..] == Decimal(n);
  }

  lemma AtoiRefusesOtherText(s: string, k: nat)
    requires k < |s| && !IsDigit(s[k]) && (k > 0 || (s[0] != '+' && s[0] != '-'))
    ensures Atoi(s) == None
  {
    var digits := if s[0] == '-' || s[0] == '+' then s[1..] else s;
    assert s[k] in digits by {
      if s[0] == '-' || s[0] == '+' { assert s[1..][k - 1] == s[k]; }
    }
  }
}
