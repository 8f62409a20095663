/** The string operations the listing code relies on: `str.lower`, `str.startswith`,
    `str.endswith` and the last piece of `str.split(sep)`. */
module Text {

  predicate StartsWith(s: string, prefix: string) {
    |prefix| <= |s| && s[..|prefix|] == prefix
  }

  predicate EndsWith(s: string, suffix: string) {
    |suffix| <= |s| && s[|s| - |suffix|..] == suffix
  }

  /** A string does not start with a prefix it differs from at some position. */
  lemma DiffersFromPrefix(s: string, prefix: string, k: nat)
    requires k < |prefix| && k < |s| && s[k] != prefix[k]
    ensures !StartsWith(s, prefix)
  {
    if |prefix| <= |s| {
      assert s[..|prefix|][k] == s[k];
    }
  }

  predicate IsUpper(c: char) {
    'A' <= c <= 'Z'
  }

  function LowerChar(c: char): char {
    if IsUpper(c) then (c as int + 32) as char else c
  }

  /** Lower-case letters only where two strings differ. */
  ghost predicate SameIgnoringCase(a: string, b: string) {
    |a| == |b| && forall i :: 0 <= i < |a| ==> LowerChar(a[i]) == LowerChar(b[i])
  }

  /** `s.lower()` on the ASCII letters: the result has no upper-case letter and
      differs from `s` only in case. */
  function Lower(s: string): (r: string)
    ensures |r| == |s|
    ensures forall i :: 0 <= i < |r| ==> !IsUpper(r[i])
    ensures SameIgnoringCase(r, s)
  {
    seq(|s|, i requires 0 <= i < |s| => LowerChar(s[i]))
  }

  /** Names that differ only in case lower-case to the same string. */
  lemma LowerIgnoresCase(a: string, b: string)
    requires SameIgnoringCase(a, b)
    ensures Lower(a) == Lower(b)
  {
  }

  /** `s.split(sep)[-1]`: the longest suffix of `s` free of `sep`; it is either
      the whole of `s` or it follows the last `sep`. */
  function LastSegment(s: string, sep: char): (r: string)
    ensures sep !in r
    ensures EndsWith(s, r)
    ensures r == s || (|r| < |s| && s[|s| - |r| - 1] == sep)
  {
    if s == [] then []
    else if s[|s| - 1] == sep then []
    else
      var init := LastSegment(s[..|s| - 1], sep);
      assert s == s[..|s| - 1] + [s[|s| - 1]];
      init + [s[|s| - 1]]
  }

  /** `s` ends with `sep` followed by a `sep`-free `ext` exactly when `ext` is the
      last segment of `s` and some `sep` precedes it. */
  lemma {:induction false} EndsWithSeparated(s: string, sep: char, ext: string)
    requires sep !in ext
    ensures EndsWith(s, [sep] + ext) <==> (LastSegment(s, sep) == ext && |ext| < |s|)
  {
    var r := LastSegment(s, sep);
    if EndsWith(s, [sep] + ext) {
      var start := |s| - |ext|;
      assert s[start - 1] == ([sep] + ext)[0];
      assert |r| == |ext|;
      assert s[|s| - |r|..] == s[start..];
    }
    if r == ext && |ext| < |s| {
      assert r != s;
      assert s[|s| - |ext| - 1..] == [s[|s| - |ext| - 1]] + s[|s| - |ext|..];
    }
  }
}
