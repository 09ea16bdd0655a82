/**
  Python's `str.strip()` with no argument: removes the longest leading and
  trailing runs of characters for which `str.isspace` holds.
 */
module Whitespace {

  /**
    The 29 characters CPython's `str.isspace` accepts: the ASCII controls TAB,
    LF, VT, FF, CR and FS, GS, RS, US, the space, NEL, NO-BREAK SPACE, OGHAM
    SPACE MARK, the spaces U+2000 to U+200A, LINE SEPARATOR, PARAGRAPH
    SEPARATOR, NARROW NO-BREAK SPACE, MEDIUM MATHEMATICAL SPACE and
    IDEOGRAPHIC SPACE.
   */
  const SpaceChars: set<char> := {
    '\t', '\n', '\U{0B}', '\U{0C}', '\r', '\U{1C}', '\U{1D}', '\U{1E}', '\U{1F}', ' ',
    '\U{85}', '\U{A0}', '\U{1680}',
    '\U{2000}', '\U{2001}', '\U{2002}', '\U{2003}', '\U{2004}', '\U{2005}',
    '\U{2006}', '\U{2007}', '\U{2008}', '\U{2009}', '\U{200A}',
    '\U{2028}', '\U{2029}', '\U{202F}', '\U{205F}', '\U{3000}'
  }

  predicate IsSpace(c: char) {
    c in SpaceChars
  }

  predicate AllSpace(s: string) {
    forall k :: 0 <= k < |s| ==> IsSpace(s[k])
  }

  /** Neither the first nor the last character is whitespace. */
  predicate NoOuterSpace(s: string) {
    |s| > 0 ==> !IsSpace(s[0]) && !IsSpace(s[|s| - 1])
  }

  /** `r` is `s` with a whitespace-only prefix and a whitespace-only suffix cut off. */
  ghost predicate IsTrimOf(s: string, r: string) {
    exists a, b :: 0 <= a <= b <= |s| && r == s[a..b] && AllSpace(s[..a]) && AllSpace(s[b..])
  }

  /** `str.lstrip()`. */
  function TrimStart(s: string): string {
    if |s| > 0 && IsSpace(s[0]) then TrimStart(s[1..]) else s
  }

  /** `lstrip` cuts off a whitespace-only prefix and leaves no whitespace in front. */
  lemma {:induction false} TrimStartSpec(s: string)
    ensures |TrimStart(s)| <= |s| && TrimStart(s) == s[|s| - |TrimStart(s)|..]
    ensures AllSpace(s[..|s| - |TrimStart(s)|])
    ensures |TrimStart(s)| > 0 ==> !IsSpace(TrimStart(s)[0])
    decreases |s|
  {
    if |s| > 0 && IsSpace(s[0]) {
      var t := s[1..];
      TrimStartSpec(t);
      var r := TrimStart(t);
      assert s[|s| - |r|..] == t[|t| - |r|..];
      assert s[..|s| - |r|] == [s[0]] + t[..|t| - |r|];
    }
  }

  /** `str.rstrip()`. */
  function TrimEnd(s: string): string {
    if |s| > 0 && IsSpace(s[|s| - 1]) then TrimEnd(s[..|s| - 1]) else s
  }

  /** `rstrip` cuts off a whitespace-only suffix and leaves no whitespace at the back. */
  lemma {:induction false} TrimEndSpec(s: string)
    ensures |TrimEnd(s)| <= |s| && TrimEnd(s) == s[..|TrimEnd(s)|]
    ensures AllSpace(s[|TrimEnd(s)|..])
    ensures |TrimEnd(s)| > 0 ==> !IsSpace(TrimEnd(s)[|TrimEnd(s)| - 1])
    decreases |s|
  {
    if |s| > 0 && IsSpace(s[|s| - 1]) {
      var t := s[..|s| - 1];
      TrimEndSpec(t);
      var r := TrimEnd(t);
      assert s[..|r|] == t[..|r|];
      assert s[|r|..] == t[|r|..] + [s[|s| - 1]];
    }
  }

  /** `str.strip()`. */
  function Strip(s: string): string {
    TrimEnd(TrimStart(s))
  }

  /**
    What `strip` promises: the result is `s` with a whitespace-only prefix
    and a whitespace-only suffix cut off, and it neither starts nor ends
    with whitespace.
   */
  lemma StripSpec(s: string)
    ensures IsTrimOf(s, Strip(s))
    ensures NoOuterSpace(Strip(s))
  {
    var t := TrimStart(s);
    var r := TrimEnd(t);
    TrimStartSpec(s);
    TrimEndSpec(t);
    var a := |s| - |t|;
    var b := a + |r|;
    assert r == s[a..b];
    assert s[b..] == t[|r|..];
    assert 0 <= a <= b <= |s| && r == s[a..b] && AllSpace(s[..a]) && AllSpace(s[b..]);
  }

  /**
    Cutting whitespace off both ends of `s` leaves only one candidate with no
    whitespace at either end: `Strip(s)` is the unique such trim.
   */
  lemma {:induction false} TrimUnique(s: string, r1: string, r2: string)
    requires IsTrimOf(s, r1) && NoOuterSpace(r1)
    requires IsTrimOf(s, r2) && NoOuterSpace(r2)
    ensures r1 == r2
  {
    var a1, b1 :| 0 <= a1 <= b1 <= |s| && r1 == s[a1..b1] && AllSpace(s[..a1]) && AllSpace(s[b1..]);
    var a2, b2 :| 0 <= a2 <= b2 <= |s| && r2 == s[a2..b2] && AllSpace(s[..a2]) && AllSpace(s[b2..]);
    if a1 < b1 {
      NonSpaceInside(s, a1, b1, a2, b2);
    }
    if a2 < b2 {
      NonSpaceInside(s, a2, b2, a1, b1);
    }
    assert a1 < b1 <==> a2 < b2;
    if a1 < b1 {
      assert a1 == a2 && b1 == b2;
    }
  }

  /** The ends of a trim with no outer whitespace lie within every other trim. */
  lemma {:induction false} NonSpaceInside(s: string, a1: nat, b1: nat, a2: nat, b2: nat)
    requires a1 < b1 <= |s| && NoOuterSpace(s[a1..b1])
    requires a2 <= b2 <= |s| && AllSpace(s[..a2]) && AllSpace(s[b2..])
    ensures a2 <= a1 && b1 <= b2
  {
    assert !IsSpace(s[a1]) && !IsSpace(s[b1 - 1]);
    OutsideIsSpace(s, a2, b2);
  }

  /** Every position outside a trim `s[a..b]` holds whitespace. */
  lemma {:induction false} OutsideIsSpace(s: string, a: nat, b: nat)
    requires a <= b <= |s| && AllSpace(s[..a]) && AllSpace(s[b..])
    ensures forall i :: 0 <= i < a ==> IsSpace(s[i])
    ensures forall i :: b <= i < |s| ==> IsSpace(s[i])
  {
    forall i | 0 <= i < a
      ensures IsSpace(s[i])
    {
      assert s[..a][i] == s[i];
    }
    forall i | b <= i < |s|
      ensures IsSpace(s[i])
    {
      assert s[b..][i - b] == s[i];
    }
  }

  /** `s.strip().strip() == s.strip()`. */
  lemma StripIdempotent(s: string)
    ensures Strip(Strip(s)) == Strip(s)
  {
    var r := Strip(s);
    StripSpec(s);
    StripSpec(r);
    assert r == r[0..|r|] && r[..0] == [] && r[|r|..] == [];
    assert IsTrimOf(r, r);
    TrimUnique(r, Strip(r), r);
  }

  /** Stripping a string that already has no outer whitespace returns it unchanged. */
  lemma {:induction false} StripNoOuterSpace(s: string)
    requires NoOuterSpace(s)
    ensures Strip(s) == s
  {
    StripSpec(s);
    assert s == s[0..|s|] && s[..0] == [] && s[|s|..] == [];
    assert IsTrimOf(s, s);
    TrimUnique(s, Strip(s), s);
  }

  /** A transcription with a leading space and a trailing newline loses both. */
  lemma StripExample()
    ensures Strip(" hello world\n") == "hello world"
  {
    var raw := " hello world\n";
    assert IsSpace(raw[0]) && !IsSpace(raw[1..][0]);
    assert TrimStart(raw) == raw[1..];
    var t := raw[1..];
    assert IsSpace(t[|t| - 1]) && !IsSpace(t[..|t| - 1][|t| - 2]);
  }
}
