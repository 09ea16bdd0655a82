/**
  The two pieces of POSIX path handling the program relies on: joining a
  directory and an entry name (`os.path.join` as `posixpath.join` does it
  for two components) and the final component of a path (`basename`).
 */
module Paths {

  /** `s.endswith(suffix)`. */
  predicate EndsWith(s: string, suffix: string) {
    |suffix| <= |s| && s[|s| - |suffix|..] == suffix
  }

  /**
    `posixpath.join(a, b)`: an absolute `b` replaces `a`; otherwise `b` is
    appended, with a `'/'` in between unless `a` is empty or already ends
    with one.
   */
  function Join(a: string, b: string): string {
    if |b| > 0 && b[0] == '/' then b
    else if |a| == 0 || a[|a| - 1] == '/' then a + b
    else a + "/" + b
  }

  /** `posixpath.basename(p)`: everything after the last `'/'`. */
  function BaseName(p: string): (r: string)
    ensures '/' !in r
    ensures EndsWith(p, r)
    ensures |r| == |p| || p[|p| - |r| - 1] == '/'
  {
    if |p| == 0 || p[|p| - 1] == '/' then ""
    else
      var r := BaseName(p[..|p| - 1]) + [p[|p| - 1]];
      assert p[|p| - |r|..] == p[..|p| - 1][|p| - |r|..] + [p[|p| - 1]];
      r
  }

  /**
    The entry name can be recovered from the joined path: for a name without
    `'/'` (as every name `os.listdir` returns is), `basename(join(a, b)) == b`.
   */
  lemma JoinBaseName(a: string, b: string)
    requires '/' !in b
    ensures BaseName(Join(a, b)) == b
  {
    if |b| > 0 {
      assert b[0] in b;
    }
    var prefix := if |a| == 0 || a[|a| - 1] == '/' then a else a + "/";
    assert Join(a, b) == prefix + b;
    BaseNameAfterSeparator(prefix, b);
  }

  lemma {:induction false} BaseNameAfterSeparator(p: string, b: string)
    requires |p| == 0 || p[|p| - 1] == '/'
    requires '/' !in b
    ensures BaseName(p + b) == b
    decreases |b|
  {
    if |b| == 0 {
      assert p + b == p;
    } else {
      var b' := b[..|b| - 1];
      assert (p + b)[..|p + b| - 1] == p + b';
      assert b[|b| - 1] in b;
      BaseNameAfterSeparator(p, b');
      assert b == b' + [b[|b| - 1]];
    }
  }

  /** Different entry names of one directory give different paths. */
  lemma JoinInjective(a: string, b1: string, b2: string)
    requires '/' !in b1 && '/' !in b2
    ensures Join(a, b1) == Join(a, b2) <==> b1 == b2
  {
    JoinBaseName(a, b1);
    JoinBaseName(a, b2);
  }
}
