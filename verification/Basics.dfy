/** Small datatypes and string helpers shared by the other modules. */
module Basics {
  datatype Option<+T> = None | Some(value: T) {
    function GetOr(default: T): T {
      match this
      case None => default
      case Some(v) => v
    }
  }

  /** What an attempt to rewrite a file in place does to it. */
  datatype Save = Saved | Untouched | Emptied

  /** A single path element. */
  predicate Component(s: string) { s != "" && '/' !in s }

  /** strings.Index: the first place `sep` starts in s, or -1. */
  function IndexOf(s: string, sep: string): (i: int)
    ensures -1 <= i && (i >= 0 ==> i <= |s| && sep <= s[i..])
    ensures forall j :: 0 <= j <= |s| && (i < 0 || j < i) ==> !(sep <= s[j..])
  {
    if sep <= s then
      assert s[0..] == s;
      0
    else if s == "" then -1
    else
      var i := IndexOf(s[1..], sep);
      assert forall j :: 1 <= j <= |s| ==> s[j..] == s[1..][j - 1..];
      assert s[0..] == s;
      if i < 0 then -1 else i + 1
  }
}
