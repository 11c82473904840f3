/** What the shared string checks and the order of strings mean, character by character. */
module TextLaws {
  import opened Text
  import Ordering

  /** The ASCII characters that stripping removes. */
  predicate WhiteSpace(c: char) {
    c == ' ' || c == '\t' || c == '\n' || c == '\r' || c as int in {11, 12, 28, 29, 30, 31}
  }

  predicate AllWhite(s: string) {
    forall i :: 0 <= i < |s| ==> WhiteSpace(s[i])
  }

  lemma {:induction false} BlankMeans(c: char)
    ensures Blank(c) <==> WhiteSpace(c)
  {
  }

  lemma {:induction false} StripLeftMeans(s: string)
    ensures |StripLeft(s)| <= |s|
    ensures var i := |s| - |StripLeft(s)|;
            StripLeft(s) == s[i..] && AllWhite(s[..i]) && (StripLeft(s) != [] ==> !WhiteSpace(StripLeft(s)[0]))
  {
    if s != [] {
      BlankMeans(s[0]);
      if Blank(s[0]) {
        StripLeftMeans(s[1..]);
        var i := |s| - |StripLeft(s)|;
        assert s[..i] == [s[0]] + s[1..][..i - 1];
      }
    }
  }

  lemma {:induction false} StripRightMeans(s: string)
    ensures |StripRight(s)| <= |s|
    ensures var r := StripRight(s);
            && r == s[..|r|] && AllWhite(s[|r|..]) && (r != [] ==> !WhiteSpace(r[|r| - 1]))
  {
    if s != [] {
      var n := |s| - 1;
      BlankMeans(s[n]);
      if Blank(s[n]) {
        StripRightMeans(s[..n]);
        var r := StripRight(s);
        assert s[|r|..] == s[..n][|r|..] + [s[n]];
      }
    }
  }

  /** Stripping removes white space at both ends and nothing else. */
  lemma {:induction false} StripMeans(s: string)
    ensures exists i, j :: 0 <= i <= j <= |s| && Strip(s) == s[i..j] && AllWhite(s[..i]) && AllWhite(s[j..])
              && (i < j ==> !WhiteSpace(s[i]) && !WhiteSpace(s[j - 1]))
  {
    StripLeftMeans(s);
    var left := StripLeft(s);
    var i := |s| - |left|;
    StripRightMeans(left);
    var j := i + |Strip(s)|;
    assert left[..|Strip(s)|] == s[i..j] && left[|Strip(s)|..] == s[j..];
    assert i < j ==> left[0] == s[i] && Strip(s)[|Strip(s)| - 1] == s[j - 1];
  }

  /** Nothing is left exactly of text that is all white space. */
  lemma {:induction false} StripsToNothing(s: string)
    ensures Strip(s) == "" <==> AllWhite(s)
  {
    StripMeans(s);
    var i, j :| 0 <= i <= j <= |s| && Strip(s) == s[i..j] && AllWhite(s[..i]) && AllWhite(s[j..])
                && (i < j ==> !WhiteSpace(s[i]) && !WhiteSpace(s[j - 1]));
    if i == j {
      assert s == s[..i] + s[j..];
    } else {
      assert !WhiteSpace(s[i]);
    }
  }

  lemma {:induction false} StripsFront(a: string, core: string)
    requires AllWhite(a) && core != "" && !WhiteSpace(core[0])
    ensures StripLeft(a + core) == core
  {
    if a == "" {
      assert a + core == core;
      BlankMeans(core[0]);
    } else {
      BlankMeans(a[0]);
      assert (a + core)[1..] == a[1..] + core;
      StripsFront(a[1..], core);
    }
  }

  lemma {:induction false} StripsBack(core: string, b: string)
    requires AllWhite(b) && core != "" && !WhiteSpace(core[|core| - 1])
    ensures StripRight(core + b) == core
  {
    if b == "" {
      assert core + b == core;
      BlankMeans(core[|core| - 1]);
    } else {
      var n := |b| - 1;
      BlankMeans(b[n]);
      assert (core + b)[..|core| + n] == core + b[..n];
      StripsBack(core, b[..n]);
    }
  }

  /** Text between white space is what stripping leaves. */
  lemma {:induction false} StripsTo(a: string, core: string, b: string)
    requires AllWhite(a) && AllWhite(b) && core != ""
    requires !WhiteSpace(core[0]) && !WhiteSpace(core[|core| - 1])
    ensures Strip(a + core + b) == core
  {
    assert a + core + b == a + (core + b);
    StripsFront(a, core + b);
    StripsBack(core, b);
  }

  /** The placeholder, in any mixture of cases. */
  predicate Pending(s: string) {
    && |s| == 7
    && (s[0] == 'P' || s[0] == 'p') && (s[1] == 'E' || s[1] == 'e') && (s[2] == 'N' || s[2] == 'n')
    && (s[3] == 'D' || s[3] == 'd') && (s[4] == 'I' || s[4] == 'i') && (s[5] == 'N' || s[5] == 'n')
    && (s[6] == 'G' || s[6] == 'g')
  }

  lemma {:induction false} PendingMeans(s: string)
    ensures Upper(s) == "PENDING" <==> Pending(s)
  {
    var u := Upper(s);
    assert |u| == |s| && forall i :: 0 <= i < |s| ==> u[i] == UpperChar(s[i]);
    if Pending(s) {
      assert u == [u[0], u[1], u[2], u[3], u[4], u[5], u[6]];
    }
  }

  /** A value is concrete when something is left of it that is not the placeholder. */
  lemma {:induction false} PresentMeans(s: string)
    ensures Present(s) <==> !AllWhite(s) && !Pending(Strip(s))
  {
    StripsToNothing(s);
    PendingMeans(Strip(s));
  }

  /** Lower case moves the letters A to Z, each to its own small letter, and nothing else. */
  lemma {:induction false} LowerMeans(s: string, i: nat)
    requires i < |s|
    ensures |Lower(s)| == |s|
    ensures 'A' <= s[i] <= 'Z' ==> Lower(s)[i] as int - 'a' as int == s[i] as int - 'A' as int
    ensures !('A' <= s[i] <= 'Z') ==> Lower(s)[i] == s[i]
  {
  }

  /** A digest or a commit: so many digits and letters from a to f. */
  lemma {:induction false} HexMeans(s: string)
    ensures LowerHex(s) <==> forall i :: 0 <= i < |s| ==> s[i] in "0123456789abcdef"
    ensures Sha40(s) <==> |s| == 40 && forall i :: 0 <= i < |s| ==> s[i] in "0123456789abcdef"
    ensures Sha256(s) <==> |s| == 64 && forall i :: 0 <= i < |s| ==> s[i] in "0123456789abcdef"
  {
    forall i | 0 <= i < |s|
      ensures '0' <= s[i] <= '9' || 'a' <= s[i] <= 'f' <==> s[i] in "0123456789abcdef"
    {
      HexDigit(s[i]);
    }
  }

  lemma {:induction false} HexDigit(c: char)
    ensures '0' <= c <= '9' || 'a' <= c <= 'f' <==> c in "0123456789abcdef"
  {
    var digits := "0123456789abcdef";
    assert forall i :: 0 <= i < 10 ==> digits[i] as int == '0' as int + i;
    assert forall i :: 10 <= i < 16 ==> digits[i] as int == 'a' as int + i - 10;
    if '0' <= c <= '9' {
      assert digits[c as int - '0' as int] == c;
    } else if 'a' <= c <= 'f' {
      assert digits[c as int - 'a' as int + 10] == c;
    }
  }

  lemma {:induction false} AffixMeans(s: string, affix: string)
    ensures StartsWith(s, affix) <==> exists rest: string :: s == affix + rest
    ensures EndsWith(s, affix) <==> exists front: string :: s == front + affix
  {
    if StartsWith(s, affix) {
      assert s == affix + s[|affix|..];
    }
    if EndsWith(s, affix) {
      assert s == s[..|s| - |affix|] + affix;
    }
  }

  /** The enclosing directory and the name in it. */
  lemma {:induction false} PathMeans(directory: string, name: string)
    requires '/' !in name
    ensures LastSegment(directory + "/" + name) == name && ParentPath(directory + "/" + name) == directory
    ensures LastSegment(name) == name && ParentPath(name) == ""
  {
    LastSegmentAfterSlash(directory, name);
    assert (directory + "/" + name)[|directory|] == '/';
  }

  /** Upper case moves the letters a to z, each to its own capital, and nothing else. */
  lemma {:induction false} UpperMeans(s: string, i: nat)
    requires i < |s|
    ensures |Upper(s)| == |s|
    ensures 'a' <= s[i] <= 'z' ==> Upper(s)[i] as int - 'A' as int == s[i] as int - 'a' as int
    ensures !('a' <= s[i] <= 'z') ==> Upper(s)[i] == s[i]
  {
  }

  /** The order of strings: a prefix comes first, and otherwise the first character that differs decides. */
  lemma {:induction false} StrLeqMeans(a: string, b: string)
    ensures Ordering.StrLeq(a, b) <==>
            || (|a| <= |b| && b[..|a|] == a)
            || exists k :: 0 <= k < |a| && k < |b| && a[..k] == b[..k] && a[k] < b[k]
  {
    if a != [] && b != [] {
      if a[0] != b[0] {
        assert |a| <= |b| ==> b[..|a|][0] == b[0];
        assert forall k :: 0 < k <= |a| && k <= |b| ==> a[..k][0] != b[..k][0];
        assert a[..0] == b[..0];
      } else {
        StrLeqMeans(a[1..], b[1..]);
        assert a == [a[0]] + a[1..];
        assert |a| <= |b| ==> b[..|a|] == [b[0]] + b[1..][..|a| - 1];
        if k :| 0 <= k < |a| && k < |b| && a[..k] == b[..k] && a[k] < b[k] {
          assert k > 0;
          assert a[1..][..k - 1] == a[..k][1..] && b[1..][..k - 1] == b[..k][1..];
          assert a[1..][k - 1] < b[1..][k - 1];
        }
        if k :| 0 <= k < |a| - 1 && k < |b| - 1 && a[1..][..k] == b[1..][..k] && a[1..][k] < b[1..][k] {
          assert a[..k + 1] == [a[0]] + a[1..][..k] && b[..k + 1] == [b[0]] + b[1..][..k];
          assert a[k + 1] < b[k + 1];
        }
      }
    }
  }
}
