/**
 The path operations the rename pass needs: the exact suffix test of
 `String.prototype.endsWith`, POSIX `path.basename`, and `path.join` of a
 directory and a file name.
 */
module Paths {

  /** `s.endsWith(suffix)`: an exact, case-sensitive suffix match. */
  predicate EndsWith(s: string, suffix: string) {
    |suffix| <= |s| && s[|s| - |suffix|..] == suffix
  }

  /** The last segment of `p`: the longest suffix that holds no `/`. */
  function Basename(p: string): (b: string)
    ensures '/' !in b
    ensures |b| < |p| ==> p[|p| - |b| - 1] == '/'
    decreases |p|
  {
    if |p| == 0 || p[|p| - 1] == '/' then ""
    else Basename(p[..|p| - 1]) + [p[|p| - 1]]
  }

  /** The basename is a suffix of the path; with the separator fact in
      `Basename`'s contract, it is the whole last segment. */
  lemma {:induction false} BasenameIsSuffix(p: string)
    ensures EndsWith(p, Basename(p))
    decreases |p|
  {
    if |p| > 0 && p[|p| - 1] != '/' {
      var init := p[..|p| - 1];
      BasenameIsSuffix(init);
      BasenameOfSnoc(p);
      EndsWithAppend(init, Basename(init), p[|p| - 1]);
      assert init + [p[|p| - 1]] == p;
    }
  }

  /** A source path that ends in `.html` keeps that suffix in its basename. */
  lemma {:induction false} BasenameKeepsSuffix(p: string, suffix: string)
    requires EndsWith(p, suffix)
    requires '/' !in suffix
    ensures EndsWith(Basename(p), suffix)
    decreases |p|
  {
    if |suffix| > 0 {
      var init, suffixInit := p[..|p| - 1], suffix[..|suffix| - 1];
      EndsWithDropLast(p, suffix);
      BasenameKeepsSuffix(init, suffixInit);
      BasenameOfSnoc(p);
      EndsWithAppend(Basename(init), suffixInit, p[|p| - 1]);
      assert suffixInit + [suffix[|suffix| - 1]] == suffix;
    }
  }

  /** A path whose last character is not a separator keeps that character
      at the end of its basename. */
  lemma BasenameOfSnoc(p: string)
    requires |p| > 0 && p[|p| - 1] != '/'
    ensures Basename(p) == Basename(p[..|p| - 1]) + [p[|p| - 1]]
  {
  }

  /** Dropping the last character of both sides keeps a suffix match. */
  lemma EndsWithDropLast(s: string, suffix: string)
    requires EndsWith(s, suffix) && |suffix| > 0
    ensures s[|s| - 1] == suffix[|suffix| - 1]
    ensures EndsWith(s[..|s| - 1], suffix[..|suffix| - 1])
  {
    assert s[|s| - 1] == s[|s| - |suffix|..][|suffix| - 1];
    assert s[..|s| - 1][|s| - |suffix|..] == suffix[..|suffix| - 1];
  }

  /** Appending the same character to both sides keeps a suffix match. */
  lemma EndsWithAppend(s: string, suffix: string, c: char)
    requires EndsWith(s, suffix)
    ensures EndsWith(s + [c], suffix + [c])
  {
    assert (s + [c])[|s| - |suffix|..] == s[|s| - |suffix|..] + [c];
  }

  /** A file in the output tree, as `path.join(dir, name)` names it. Two
      joins name the same file exactly when directory and name agree. */
  datatype Path = Join(dir: string, name: string)
}
