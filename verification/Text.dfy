/** The string checks the release scripts share.  Letters are ASCII letters. */
module Text {

  function LowerChar(c: char): char {
    if 'A' <= c <= 'Z' then (c as int + 32) as char else c
  }

  function UpperChar(c: char): char {
    if 'a' <= c <= 'z' then (c as int - 32) as char else c
  }

  function Lower(s: string): string {
    seq(|s|, i requires 0 <= i < |s| => LowerChar(s[i]))
  }

  function Upper(s: string): string {
    seq(|s|, i requires 0 <= i < |s| => UpperChar(s[i]))
  }

  /** The ASCII characters that count as white space: tab to carriage return, the four separators, the space. */
  predicate Blank(c: char) {
    9 <= c as int <= 13 || 28 <= c as int <= 32
  }

  function StripLeft(s: string): string {
    if s != [] && Blank(s[0]) then StripLeft(s[1..]) else s
  }

  function StripRight(s: string): string {
    if s != [] && Blank(s[|s| - 1]) then StripRight(s[..|s| - 1]) else s
  }

  function Strip(s: string): string {
    StripRight(StripLeft(s))
  }

  /** A concrete value: not blank, and not the placeholder PENDING. */
  predicate Present(s: string) {
    Strip(s) != "" && Upper(Strip(s)) != "PENDING"
  }

  predicate LowerHex(s: string) {
    forall i :: 0 <= i < |s| ==> '0' <= s[i] <= '9' || 'a' <= s[i] <= 'f'
  }

  predicate Sha40(s: string) {
    |s| == 40 && LowerHex(s)
  }

  predicate Sha256(s: string) {
    |s| == 64 && LowerHex(s)
  }

  predicate StartsWith(s: string, prefix: string) {
    |s| >= |prefix| && s[..|prefix|] == prefix
  }

  predicate EndsWith(s: string, suffix: string) {
    |s| >= |suffix| && s[|s| - |suffix|..] == suffix
  }

  lemma LowerHexIsLower(s: string)
    requires LowerHex(s)
    ensures Lower(s) == s
  {
  }

  lemma LowerTwice(s: string)
    ensures Lower(Lower(s)) == Lower(s)
  {
  }

  lemma {:induction false} StripRightKeepsHead(s: string)
    requires s != [] && !Blank(s[0])
    ensures StripRight(s) != [] && StripRight(s)[0] == s[0]
  {
    if Blank(s[|s| - 1]) {
      StripRightKeepsHead(s[..|s| - 1]);
    }
  }

  /** Text that starts with a letter other than P is concrete. */
  lemma {:induction false} PresentByHead(s: string)
    requires s != [] && !Blank(s[0]) && UpperChar(s[0]) != 'P'
    ensures Present(s)
  {
    StripRightKeepsHead(s);
    assert Upper(Strip(s))[0] == UpperChar(s[0]);
  }

  /** The text after the last slash. */
  function LastSegment(path: string): string {
    if '/' in path then LastSegment(path[1..]) else path
  }

  lemma {:induction false} LastSegmentAfterSlash(prefix: string, name: string)
    requires '/' !in name
    ensures LastSegment(prefix + "/" + name) == name
  {
    var r := prefix + "/" + name;
    assert r[|prefix|] == '/';
    if prefix == [] {
      assert r[1..] == name;
    } else {
      assert r[1..] == prefix[1..] + "/" + name;
      LastSegmentAfterSlash(prefix[1..], name);
    }
  }

  lemma {:induction false} LastSegmentShorter(path: string)
    requires '/' in path
    ensures |LastSegment(path)| < |path|
  {
    if '/' in path[1..] {
      LastSegmentShorter(path[1..]);
    }
  }

  /** The path of the enclosing directory: the text before the last slash. */
  function ParentPath(path: string): string {
    if '/' in path then
      LastSegmentShorter(path);
      path[..|path| - |LastSegment(path)| - 1]
    else
      ""
  }
}
