/** String helpers: prefixes, suffixes, substrings and ASCII lower-casing. */
module Text {

  predicate IsPrefix(p: string, s: string) {
    |p| <= |s| && s[..|p|] == p
  }

  predicate IsSuffix(p: string, s: string) {
    |p| <= |s| && s[|s| - |p|..] == p
  }

  /** `p` occurs somewhere in `s` as a contiguous run of characters. */
  predicate Contains(s: string, p: string) {
    exists i {:trigger s[i..]} :: 0 <= i <= |s| - |p| && IsPrefix(p, s[i..])
  }

  function LowerChar(c: char): char {
    if 'A' <= c <= 'Z' then (c as int + 32) as char else c
  }

  /** Lower-cases the ASCII letters of `s`, leaving every other character alone. */
  function Lower(s: string): (r: string)
    ensures |r| == |s|
    ensures forall i :: 0 <= i < |s| ==> r[i] == LowerChar(s[i])
  {
    if s == [] then [] else [LowerChar(s[0])] + Lower(s[1..])
  }

  /** A substring of a substring is a substring. */
  lemma ContainsTransitive(s: string, m: string, p: string)
    requires Contains(s, m) && Contains(m, p)
    ensures Contains(s, p)
  {
    var i :| 0 <= i <= |s| - |m| && IsPrefix(m, s[i..]);
    var j :| 0 <= j <= |m| - |p| && IsPrefix(p, m[j..]);
    forall k | 0 <= k < |p|
      ensures s[i + j..][..|p|][k] == p[k]
    {
      assert s[i..][..|m|][j + k] == m[j + k];
      assert m[j..][..|p|][k] == p[k];
    }
    assert s[i + j..][..|p|] == p;
  }

  /** Lower-casing commutes with taking a substring. */
  lemma LowerContains(s: string, p: string)
    requires Contains(s, p)
    ensures Contains(Lower(s), Lower(p))
  {
    var i :| 0 <= i <= |s| - |p| && IsPrefix(p, s[i..]);
    var ls, lp := Lower(s), Lower(p);
    assert ls[i..][..|lp|] == lp by {
      forall k | 0 <= k < |lp|
        ensures ls[i..][..|lp|][k] == lp[k]
      {
        assert s[i..][..|p|][k] == p[k];
      }
    }
    assert IsPrefix(lp, ls[i..]);
  }

  /** A suffix of a string is contained in it. */
  lemma SuffixContained(p: string, s: string)
    requires IsSuffix(p, s)
    ensures Contains(s, p)
  {
    var i := |s| - |p|;
    assert s[i..][..|p|] == s[i..];
  }
}
