/**
  The two pieces of Python's standard library that file-type detection relies
  on: `os.path.splitext` on a POSIX system (separator '/', no alternative
  separator, extension separator '.') and `str.lower` restricted to ASCII.
*/
module OsPath {

  const SEP: char := '/'
  const EXTSEP: char := '.'

  /** Python's `str.rfind` for one character: the last index of `c` in `s`, or -1. */
  function RFind(s: string, c: char): (r: int)
    ensures -1 <= r < |s|
    ensures 0 <= r ==> s[r] == c
    ensures forall j :: r < j < |s| ==> s[j] != c
  {
    if s == [] then -1
    else if s[|s| - 1] == c then |s| - 1
    else RFind(s[..|s| - 1], c)
  }

  predicate AllDots(s: string) {
    forall k :: 0 <= k < |s| ==> s[k] == EXTSEP
  }

  /** No path separator at index `j` or after it. */
  ghost predicate NoSepFrom(p: string, j: nat) {
    forall k :: j <= k < |p| ==> p[k] != SEP
  }

  /** No extension separator after index `i`. */
  ghost predicate NoDotAfter(p: string, i: nat) {
    forall k :: i < k < |p| ==> p[k] != EXTSEP
  }

  /**
    A path has an extension when its last '.' lies in the base name (after the
    last '/') and some character of the base name before that '.' is not a
    dot: leading dots of a base name do not start an extension.
  */
  ghost predicate HasExtension(p: string) {
    exists j, i :: 0 <= j < i < |p| && p[j] != EXTSEP && p[i] == EXTSEP && NoSepFrom(p, j) && NoDotAfter(p, i)
  }

  /**
    The test `splitext` makes: the last '.' comes after the last '/', and the
    part of the base name before it is not made of dots only.
  */
  predicate DotStartsExtension(p: string) {
    var sepIndex, dotIndex := RFind(p, SEP), RFind(p, EXTSEP);
    dotIndex > sepIndex && !AllDots(p[sepIndex + 1..dotIndex])
  }

  /**
    `os.path.splitext(p)`: the pair (root, ext) with root + ext == p, where
    ext is empty or runs from the last '.' of the base name to the end.
  */
  function SplitExt(p: string): (r: (string, string))
    ensures r.0 + r.1 == p
    ensures r.1 != [] ==> r.1[0] == EXTSEP && forall k :: 0 < k < |r.1| ==> r.1[k] != EXTSEP && r.1[k] != SEP
    ensures r.1 != [] <==> HasExtension(p)
  {
    ExtensionIff(p);
    if DotStartsExtension(p) then
      var dotIndex := RFind(p, EXTSEP);
      assert forall k :: 0 < k < |p[dotIndex..]| ==> p[dotIndex..][k] == p[dotIndex + k];
      (p[..dotIndex], p[dotIndex..])
    else
      (p, [])
  }

  lemma ExtensionIff(p: string)
    ensures DotStartsExtension(p) <==> HasExtension(p)
  {
    if DotStartsExtension(p) { ExtensionWitness(p); }
    if HasExtension(p) { ExtensionFound(p); }
  }

  lemma ExtensionWitness(p: string)
    requires DotStartsExtension(p)
    ensures HasExtension(p)
  {
    var sepIndex, dotIndex := RFind(p, SEP), RFind(p, EXTSEP);
    var s := p[sepIndex + 1..dotIndex];
    var k :| 0 <= k < |s| && s[k] != EXTSEP;
    var j := sepIndex + 1 + k;
    assert p[j] == s[k];
    assert NoSepFrom(p, j);
    assert NoDotAfter(p, dotIndex);
  }

  lemma ExtensionFound(p: string)
    requires HasExtension(p)
    ensures DotStartsExtension(p)
  {
    var sepIndex, dotIndex := RFind(p, SEP), RFind(p, EXTSEP);
    var j, i :| 0 <= j < i < |p| && p[j] != EXTSEP && p[i] == EXTSEP && NoSepFrom(p, j) && NoDotAfter(p, i);
    LastIndexIs(p, EXTSEP, i, dotIndex);
    assert sepIndex < j;
    var s := p[sepIndex + 1..dotIndex];
    assert s[j - sepIndex - 1] == p[j];
  }

  /** An occurrence with none after it is the one `RFind` finds. */
  lemma LastIndexIs(p: string, c: char, i: nat, r: int)
    requires i < |p| && p[i] == c
    requires forall k :: i < k < |p| ==> p[k] != c
    requires r == RFind(p, c)
    ensures r == i
  {
  }

  /** ASCII case folding of one character; every other character is kept. */
  function LowerChar(c: char): (d: char)
    ensures !('A' <= d <= 'Z')
    ensures 'A' <= c <= 'Z' ==> d as int == c as int + 32
    ensures !('A' <= c <= 'Z') ==> d == c
  {
    if 'A' <= c <= 'Z' then (c as int + 32) as char else c
  }

  /** `s.lower()`, for ASCII letters: character by character, length preserved. */
  function Lower(s: string): (r: string)
    ensures |r| == |s|
    ensures forall k :: 0 <= k < |s| ==> r[k] == LowerChar(s[k])
  {
    if s == [] then [] else Lower(s[..|s| - 1]) + [LowerChar(s[|s| - 1])]
  }
}
